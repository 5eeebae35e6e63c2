/** The bytes of compressed tracks, spelled out: what each message looks like in the stream, and that a track
    written down byte by byte is read back as it was written. */
module TrackSpelling {
  import opened Wrappers
  import opened Words
  import opened TrackBytes
  import opened SequenceMerge
  import opened SequenceReader

  // ---- numbers -----------------------------------------------------------------------------

  /** Numbers of one, two, three and four bytes: seven bits each, the most significant first. */
  lemma NumbersSpelled(a: byte, b: byte, c: byte, d: byte, rest: seq<byte>)
    requires a < 0x80 && b < 0x80 && c < 0x80 && d < 0x80
    ensures VarLen([d] + rest) == Some(Number(d as nat, 1))
    ensures VarLen([0x80 + c, d] + rest) == Some(Number(c as nat * 0x80 + d as nat, 2))
    ensures VarLen([0x80 + b, 0x80 + c, d] + rest) == Some(Number(b as nat * 0x4000 + c as nat * 0x80 + d as nat, 3))
    ensures VarLen([0x80 + a, 0x80 + b, 0x80 + c, d] + rest) ==
            Some(Number(a as nat * 0x20_0000 + b as nat * 0x4000 + c as nat * 0x80 + d as nat, 4))
  {
    hide VarLenFrom;
    TwoBytes(0, c, d, rest);
    ReadByte(0, d, d as nat, rest);
    ThreeBytes(0, b, c, d, rest);
    assert [0x80 + a, 0x80 + b, 0x80 + c, d] + rest == [0x80 + a] + ([0x80 + b, 0x80 + c, d] + rest);
    ReadByte(0, 0x80 + a, a as nat, [0x80 + b, 0x80 + c, d] + rest);
    ThreeBytes(a as nat, b, c, d, rest);
  }

  lemma TwoBytes(v: nat, c: byte, d: byte, rest: seq<byte>)
    requires v < 0x4000 && c < 0x80 && d < 0x80
    ensures VarLenFrom(v, [0x80 + c, d] + rest) == Some(Number(v * 0x4000 + c as nat * 0x80 + d as nat, 2))
  {
    hide VarLenFrom;
    assert [0x80 + c, d] + rest == [0x80 + c] + ([d] + rest);
    ReadByte(v, 0x80 + c, c as nat, [d] + rest);
    ReadByte(v * 128 + c as nat, d, d as nat, rest);
  }

  lemma ThreeBytes(v: nat, b: byte, c: byte, d: byte, rest: seq<byte>)
    requires v < 0x80 && b < 0x80 && c < 0x80 && d < 0x80
    ensures VarLenFrom(v, [0x80 + b, 0x80 + c, d] + rest) ==
            Some(Number(v * 0x20_0000 + b as nat * 0x4000 + c as nat * 0x80 + d as nat, 3))
  {
    hide VarLenFrom;
    assert [0x80 + b, 0x80 + c, d] + rest == [0x80 + b] + ([0x80 + c, d] + rest);
    ReadByte(v, 0x80 + b, b as nat, [0x80 + c, d] + rest);
    TwoBytes(v * 128 + b as nat, c, d, rest);
  }

  // ---- messages ----------------------------------------------------------------------------

  /** 9n key velocity duration is a note on channel n; after one, the status may be left out. */
  lemma NoteOnSpelled(channel: byte, key: byte, velocity: byte, duration: nat, rest: seq<byte>, running: byte)
    requires channel < 16 && duration < 0x1_0000_0000
    ensures var length := EncodeVarLen(duration);
            && Decode([0x90 + channel, key, velocity] + length + rest, running) ==
               Some(Decoded(Midi(0x90 + channel, key, velocity, duration), 3 + |length|, 0x90 + channel))
            && (key < 0x80 ==>
                  Decode([key, velocity] + length + rest, 0x90 + channel) ==
                  Some(Decoded(Midi(0x90 + channel, key, velocity, duration), 2 + |length|, 0x90 + channel)))
  {
    hide VarLen, EncodeVarLen;
    var tail := EncodeVarLen(duration) + rest;
    var whole := [0x90 + channel, key, velocity] + EncodeVarLen(duration) + rest;
    var short := [key, velocity] + EncodeVarLen(duration) + rest;
    assert whole[3..] == tail && short[2..] == tail;
    VarLenRoundTrip(duration, rest);
  }

  /** Eight and A, B, E and F: a status and two data bytes, and no duration. */
  lemma TwoDataSpelled(status: byte, byte1: byte, byte2: byte, rest: seq<byte>, running: byte)
    requires 0x80 <= status < 0x90 || 0xA0 <= status < 0xC0 || 0xE0 <= status < 0xFF
    ensures Decode([status, byte1, byte2] + rest, running) ==
            Some(Decoded(Midi(status, byte1, byte2, 0), 3, status))
    ensures byte1 < 0x80 ==>
              Decode([byte1, byte2] + rest, status) == Some(Decoded(Midi(status, byte1, byte2, 0), 2, status))
  {}

  /** C and D, a program change and a channel pressure: a status and one data byte. */
  lemma OneDataSpelled(status: byte, byte1: byte, rest: seq<byte>, running: byte)
    requires 0xC0 <= status < 0xE0
    ensures Decode([status, byte1] + rest, running) == Some(Decoded(Midi(status, byte1, 0, 0), 2, status))
    ensures byte1 < 0x80 ==> Decode([byte1] + rest, status) == Some(Decoded(Midi(status, byte1, 0, 0), 1, status))
  {}

  /** FF 51 and a tempo of three bytes, FF 2E and two bytes that are passed over, FF 2F: these and only these.
      A tempo and a loop start forget the running status. FF 2D, a loop end, is not read. */
  lemma MetaSpelled(a: byte, b: byte, c: byte, code: byte, rest: seq<byte>, running: byte)
    ensures Decode([0xFF, 0x51, a, b, c] + rest, running) == Some(Decoded(Tempo(a, b, c), 5, 0))
    ensures Decode([0xFF, 0x2E, a, b] + rest, running) == Some(Decoded(LoopStart, 4, 0))
    ensures Decode([0xFF, 0x2F] + rest, running) == Some(Decoded(EndOfTrack, 2, running))
    ensures code !in {0x51, 0x2D, 0x2E, 0x2F} ==>
              Decode([0xFF, code] + rest, running) == Some(Decoded(UnknownMeta, 2, running))
    ensures Decode([0xFF, 0x2D] + rest, running).None?
  {}

  // ---- back-references ---------------------------------------------------------------------

  /** FE FE is one FE; FE and three more bytes copy the block that starts so many bytes before the FE. Any
      other byte stands for itself. */
  lemma TokensSpelled(before: seq<byte>, block: seq<byte>, between: seq<byte>, hi: byte, lo: byte, length: byte,
                      rest: seq<byte>, plain: byte)
    requires hi != 0xFE && |block| + |between| == 256 * hi as nat + lo as nat
    requires |block| == (if length == 0 then 256 else length as nat)
    ensures var loc: nat := |before + block + between|;
            var one: nat, two: nat, four: nat := loc + 1, loc + 2, loc + 4;
            && Token(before + block + between + [0xFE, hi, lo, length] + rest, loc) == Some((block, four))
            && Token(before + block + between + [0xFE, 0xFE] + rest, loc) == Some(([0xFE], two))
            && (plain != 0xFE ==> Token(before + block + between + [plain] + rest, loc) == Some(([plain], one)))
  {
    var loc := |before + block + between|;
    var copy := before + block + between + [0xFE, hi, lo, length] + rest;
    assert copy[loc..loc + 4] == [0xFE, hi, lo, length];
    assert copy[|before|..|before| + |block|] == block;
    var escape := before + block + between + [0xFE, 0xFE] + rest;
    assert escape[loc..loc + 2] == [0xFE, 0xFE];
  }

  /** Bytes written without back-references: each FE twice. */
  function Escaped(bytes: seq<byte>): seq<byte> {
    if |bytes| == 0 then [] else (if bytes[0] == 0xFE then [0xFE, 0xFE] else [bytes[0]]) + Escaped(bytes[1..])
  }

  lemma {:induction false} EscapedExpands(before: seq<byte>, bytes: seq<byte>, rest: seq<byte>)
    ensures Expand(before + Escaped(bytes) + rest, |before|, |before + Escaped(bytes)|) == Some(bytes)
    decreases |bytes|
  {
    hide *;
    if |bytes| == 0 {
      NothingEscaped(before, rest);
      assert bytes == [];
    } else {
      var first := if bytes[0] == 0xFE then [0xFE, 0xFE] else [bytes[0]];
      var tail := Escaped(bytes[1..]);
      EscapedFirst(bytes);
      Regroup(before, first, tail, rest);
      EscapedExpands(before + first, bytes[1..], rest);
      EscapedToken(before, bytes[0], tail + rest);
      ExpandNext(before + Escaped(bytes) + rest, |before|, [bytes[0]], |before + first|, |before + Escaped(bytes)|);
      assert bytes == [bytes[0]] + bytes[1..];
    }
  }

  lemma NothingEscaped(before: seq<byte>, rest: seq<byte>)
    ensures |before + Escaped([])| == |before| && Expand(before + Escaped([]) + rest, |before|, |before|) == Some([])
  {}

  lemma EscapedFirst(bytes: seq<byte>)
    requires |bytes| > 0
    ensures Escaped(bytes) == (if bytes[0] == 0xFE then [0xFE, 0xFE] else [bytes[0]]) + Escaped(bytes[1..])
  {}

  lemma Regroup(a: seq<byte>, b: seq<byte>, c: seq<byte>, d: seq<byte>)
    ensures a + (b + c) == (a + b) + c && a + (b + c) + d == (a + b) + c + d == a + b + (c + d)
  {}

  lemma EscapedToken(before: seq<byte>, b: byte, rest: seq<byte>)
    ensures var next: nat := if b == 0xFE then |before| + 2 else |before| + 1;
            Token(before + (if b == 0xFE then [0xFE, 0xFE] else [b]) + rest, |before|) == Some(([b], next))
  {
    var data := before + (if b == 0xFE then [0xFE, 0xFE] else [b]) + rest;
    assert data[|before|] == b;
    assert b == 0xFE ==> data[|before| + 1] == 0xFE;
  }

  lemma ExpandNext(data: seq<byte>, loc: nat, bytes: seq<byte>, next: nat, end: nat)
    requires loc < end && Token(data, loc) == Some((bytes, next)) && Expand(data, next, end).Some?
    ensures Expand(data, loc, end) == Some(bytes + Expand(data, next, end).value)
  {
    hide Token;
  }

  // ---- tracks ------------------------------------------------------------------------------

  /** A message with its status written out. */
  function Spelled(m: Message): seq<byte> {
    match m
    case Midi(status, byte1, byte2, duration) =>
      if 0xC0 <= status < 0xE0 then [status, byte1]
      else if 0x90 <= status < 0xA0 then [status, byte1, byte2] + EncodeVarLen(duration)
      else [status, byte1, byte2]
    case Tempo(hi, mid, lo) => [0xFF, 0x51, hi, mid, lo]
    case LoopStart => [0xFF, 0x2E, 0, 0]
    case EndOfTrack => [0xFF, 0x2F]
    case UnknownMeta => [0xFF, 0]
  }

  /** What can be written: a channel status, a second data byte where there is one, a duration of a note. */
  ghost predicate Writable(m: Message) {
    m.Midi? ==>
      && 0x80 <= m.status < 0xFF && m.duration < 0x1_0000_0000
      && (0xC0 <= m.status < 0xE0 ==> m.byte2 == 0)
      && (!(0x90 <= m.status < 0xA0) ==> m.duration == 0)
  }

  /** A written message is read as it was written. */
  lemma MessageRoundTrip(m: Message, rest: seq<byte>, running: byte)
    requires Writable(m)
    ensures var d := Decode(Spelled(m) + rest, running);
            d.Some? && d.value.message == m && d.value.used == |Spelled(m)|
  {
    hide Decode, EncodeVarLen;
    match m {
      case Midi(status, byte1, byte2, duration) =>
        if 0xC0 <= status < 0xE0 {
          OneDataSpelled(status, byte1, rest, running);
        } else if 0x90 <= status < 0xA0 {
          NoteOnSpelled(status - 0x90, byte1, byte2, duration, rest, running);
        } else {
          TwoDataSpelled(status, byte1, byte2, rest, running);
        }
      case Tempo(hi, mid, lo) => MetaSpelled(hi, mid, lo, 0, rest, running);
      case LoopStart => MetaSpelled(0, 0, 0, 0, rest, running);
      case EndOfTrack => MetaSpelled(0, 0, 0, 0, rest, running);
      case UnknownMeta => MetaSpelled(0, 0, 0, 0, rest, running);
    }
  }

  /** A song the format can hold: messages that can be written, one end, at its end, and deltas below 2^32; no
      time passes after a message the reader passes over. */
  ghost predicate WritableFrom(events: seq<Due>, at: nat)
    decreases |events|
  {
    && |events| > 0 && events[0].tick == at && Writable(events[0].message)
    && (events[0].message.EndOfTrack? <==> |events| == 1)
    && (|events| > 1 ==>
          && at <= events[1].tick < at + 0x1_0000_0000
          && (events[0].message.UnknownMeta? ==> events[1].tick == at)
          && WritableFrom(events[1..], events[1].tick))
  }

  /** Each message, and the delta to the next; after the end a delta of zero. */
  function Written(events: seq<Due>): seq<byte>
    decreases |events|
  {
    if |events| == 0 then []
    else if |events| == 1 then Spelled(events[0].message) + EncodeVarLen(0)
    else
      Spelled(events[0].message) + Gap(events[0], events[1]) + Written(events[1..])
  }

  function Gap(event: Due, next: Due): seq<byte> {
    if event.message.UnknownMeta? || next.tick < event.tick then [] else EncodeVarLen(next.tick - event.tick)
  }

  lemma WrittenStep(events: seq<Due>, at: nat)
    requires WritableFrom(events, at) && |events| > 1
    ensures Written(events) == Spelled(events[0].message) + (Gap(events[0], events[1]) + Written(events[1..]))
    ensures Writable(events[0].message) && !events[0].message.EndOfTrack? && events[0].tick == at
    ensures WritableFrom(events[1..], events[1].tick)
    ensures if events[0].message.UnknownMeta? then events[1].tick == at && Gap(events[0], events[1]) == []
            else at <= events[1].tick < at + WORD && Gap(events[0], events[1]) == EncodeVarLen(events[1].tick - at)
  {
    hide EncodeVarLen, Spelled, Writable;
  }

  /** The first step of a parse. */
  lemma ParseNext(bytes: seq<byte>, running: byte, at: nat, more: bool, rest: seq<byte>)
    requires Decode(bytes, running).Some? && bytes[Decode(bytes, running).value.used..] == rest
    ensures var d := Decode(bytes, running).value;
            var first := Due(at, d.message);
            && (d.message.UnknownMeta? ==>
                  Parse(bytes, running, at, more) == Then(first, Parse(rest, d.status, at, more)))
            && (d.message.EndOfTrack? && VarLen(rest).Some? ==> Parse(bytes, running, at, more) == Some([first]))
            && (!d.message.UnknownMeta? && !d.message.EndOfTrack? && VarLen(rest).Some? ==>
                  var delta := VarLen(rest).value;
                  Parse(bytes, running, at, more) ==
                  Then(first, Parse(rest[delta.used..], d.status, at + delta.value, more)))
  {
    hide Decode, VarLen;
  }

  /** A written track is read as it was written. */
  lemma {:induction false} TrackRoundTrip(events: seq<Due>, running: byte, at: nat, more: bool)
    requires WritableFrom(events, at)
    ensures Parse(Written(events), running, at, more) == Some(events)
    decreases |events|
  {
    hide Decode, VarLen, EncodeVarLen, Spelled, Parse, Writable;
    if |events| == 1 {
      LastRoundTrip(events[0], running, more);
      assert events == [events[0]];
    } else {
      WrittenStep(events, at);
      hide Written, WritableFrom, Gap;
      var m, gap, rest := events[0].message, Gap(events[0], events[1]), Written(events[1..]);
      MessageRoundTrip(m, gap + rest, running);
      var d := Decode(Written(events), running).value;
      ParseNext(Written(events), running, at, more, gap + rest);
      TrackRoundTrip(events[1..], d.status, events[1].tick, more);
      assert events == [events[0]] + events[1..];
      if m.UnknownMeta? {
        assert gap + rest == rest;
      } else {
        VarLenRoundTrip(events[1].tick - at, rest);
        assert (gap + rest)[|gap|..] == rest;
      }
    }
  }

  lemma LastRoundTrip(event: Due, running: byte, more: bool)
    requires event.message.EndOfTrack?
    ensures Parse(Spelled(event.message) + EncodeVarLen(0), running, event.tick, more) == Some([event])
  {
    hide Decode, VarLen, EncodeVarLen, Spelled, Parse;
    var bytes := Spelled(event.message) + EncodeVarLen(0);
    MessageRoundTrip(event.message, EncodeVarLen(0), running);
    assert bytes[|Spelled(event.message)|..] == EncodeVarLen(0);
    VarLenRoundTrip(0, []);
    assert EncodeVarLen(0) + [] == EncodeVarLen(0);
    ParseNext(bytes, running, event.tick, more, EncodeVarLen(0));
  }

  // ---- sequences ---------------------------------------------------------------------------

  /** A track in the block: its first delta and its messages, each FE twice. */
  function Chunk(song: seq<Due>): seq<byte> {
    if |song| == 0 then [] else Escaped(EncodeVarLen(song[0].tick) + Written(song))
  }

  ghost predicate WritableSong(song: seq<Due>) {
    |song| > 0 ==>
      WritableFrom(song, song[0].tick) && forall i :: 0 <= i < |song| ==> song[i].tick < 0xFFFF_FFFF
  }

  function Chunks(songs: seq<seq<Due>>): seq<byte> {
    if |songs| == 0 then [] else Chunk(songs[0]) + Chunks(songs[1..])
  }

  lemma {:induction false} ChunksAt(songs: seq<seq<Due>>, i: nat)
    requires i < |songs|
    ensures Chunks(songs) == Chunks(songs[..i]) + Chunk(songs[i]) + Chunks(songs[i + 1..])
  {
    if i > 0 {
      ChunksAt(songs[1..], i - 1);
      assert songs[1..][..i - 1] == songs[..i][1..] && songs[1..][i..] == songs[i + 1..];
      assert Chunks(songs[..i]) == Chunk(songs[0]) + Chunks(songs[..i][1..]);
    }
  }

  /** A written track opens as the song it was written from. */
  lemma WrittenOpens(before: seq<byte>, song: seq<Due>, rest: seq<byte>, more: bool)
    requires WritableSong(song) && |before| > 0
    ensures Opens(before + Chunk(song) + rest, if song == [] then 0 else |before|,
                  Extent(|before + Chunk(song)|, more), song)
  {
    hide Expand, EncodeVarLen, VarLen, Parse, Written, Escaped, WritableFrom;
    if song != [] {
      var first := EncodeVarLen(song[0].tick);
      var bytes := first + Written(song);
      EscapedExpands(before, bytes, rest);
      VarLenRoundTrip(song[0].tick, Written(song));
      assert bytes[|first|..] == Written(song);
      TrackRoundTrip(song, 0, song[0].tick, more);
    }
  }

  function Offset(header: seq<byte>, songs: seq<seq<Due>>, i: nat): nat
    requires i < |songs|
  {
    if songs[i] == [] then 0 else |header| + |Chunks(songs[..i])|
  }

  ghost function EndOf(header: seq<byte>, songs: seq<seq<Due>>, i: nat): Extent
    requires i < |songs|
  {
    Extent(|header| + |Chunks(songs[..i])| + |Chunk(songs[i])|, true)
  }

  lemma TrackOpens(header: seq<byte>, songs: seq<seq<Due>>, i: nat)
    requires |header| > 0 && i < |songs| && WritableSong(songs[i])
    ensures Opens(header + Chunks(songs), Offset(header, songs, i), EndOf(header, songs, i), songs[i])
  {
    hide *;
    ChunksAt(songs, i);
    var before, chunk, rest := Chunks(songs[..i]), Chunk(songs[i]), Chunks(songs[i + 1..]);
    assert header + (before + chunk + rest) == (header + before) + chunk + rest;
    WrittenOpens(header + before, songs[i], rest, true);
    PlacesAre(header, songs, i);
  }

  lemma PlacesAre(header: seq<byte>, songs: seq<seq<Due>>, i: nat)
    requires i < |songs|
    ensures Offset(header, songs, i) == if songs[i] == [] then 0 else |header + Chunks(songs[..i])|
    ensures EndOf(header, songs, i) == Extent(|(header + Chunks(songs[..i])) + Chunk(songs[i])|, true)
  {
    hide Chunk, Chunks;
  }

  /** All tracks go on after their ends. */
  lemma AllGoOn(songs: seq<seq<Due>>, ends: seq<Extent>)
    requires |songs| == |ends| && forall i :: 0 <= i < |ends| ==> ends[i].more
    ensures LastGoesOn(songs, ends)
  {
    hide Merge;
    var all := Merge(songs);
    if |all| > 0 {
      MergedTrack(songs, |all| - 1);
    }
  }

  lemma {:induction false} MergedTrack(songs: seq<seq<Due>>, k: nat)
    requires k < |Merge(songs)|
    ensures Merge(songs)[k].track < |songs|
    decreases k
  {
    var e := Earliest(songs).value;
    MergeStep(songs, e);
    if k > 0 {
      MergedTrack(Advance(songs, e), k - 1);
    }
  }

  /** Sixteen songs written into one block, opened and read to the end, with any number of peeks in between:
      out come all their messages, merged. */
  method WriteAndPlay(header: seq<byte>, songs: seq<seq<Due>>, peeks: seq<nat>) returns (events: seq<Event>)
    requires |header| > 0 && |songs| == 16 && forall i :: 0 <= i < 16 ==> WritableSong(songs[i])
    ensures events == Reported(Merge(songs), 0)
  {
    hide Opens, WritableSong, LastGoesOn, Reader.Valid, Merge;
    var data := header + Chunks(songs);
    var offsets := seq(|songs|, i requires 0 <= i < |songs| => Offset(header, songs, i));
    ghost var ends := seq(|songs|, i requires 0 <= i < |songs| => EndOf(header, songs, i));
    forall i | 0 <= i < 16 ensures Opens(data, offsets[i], ends[i], songs[i]) {
      TrackOpens(header, songs, i);
    }
    AllGoOn(songs, ends);
    var reader := new Reader(data, offsets, ends, songs);
    events := PlayAll(reader, peeks);
  }

  /** What is reported for one message, and when: a note with its key, velocity and duration, a tempo with its
      three bytes; the end of the sequence for the last message and the end of a track for any other end. */
  lemma {:induction false} ReportedAt(all: seq<Tagged>, from: int, k: nat)
    requires k < |all|
    ensures |Reported(all, from)| == |all|
    ensures var event, m := Reported(all, from)[k], all[k].due.message;
            && event.ticks == all[k].due.tick - (if k == 0 then from else all[k - 1].due.tick)
            && (m.Midi? ==> event.kind == MidiEvent(m.status, m.byte1, m.byte2, m.duration))
            && (m.Tempo? ==> event.kind == TempoEvent(m.hi, m.mid, m.lo))
            && (m.LoopStart? ==> event.kind == LoopStartEvent)
            && (m.EndOfTrack? ==> event.kind == if k == |all| - 1 then SequenceEnd else TrackEnd)
            && (m.UnknownMeta? ==> event.kind == TrackEnd)
    decreases k
  {
    ReportedLength(all, from);
    if k > 0 {
      ReportedAt(all[1..], all[0].due.tick, k - 1);
    }
  }

  lemma {:induction false} ReportedLength(all: seq<Tagged>, from: int)
    ensures |Reported(all, from)| == |all|
  {
    if |all| > 0 {
      ReportedLength(all[1..], all[0].due.tick);
    }
  }
}
