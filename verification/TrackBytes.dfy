/** What the bytes of a compressed sequence track mean (platform/audio_sequence.c): back-references, the
    variable-length numbers of Standard MIDI Files 1.0, and events with running status. */
module TrackBytes {
  import opened Wrappers
  import opened Words

  const BLOCK_CODE: byte := 0xFE
  const META: byte := 0xFF
  const META_TEMPO: byte := 0x51
  const META_EOT: byte := 0x2F
  const LOOPSTART_CODE: byte := 0x2E
  const LOOPEND_CODE: byte := 0x2D
  const NOTE_ON: byte := 0x90
  const PROGRAM_CHANGE: byte := 0xC0
  const CHANNEL_PRESSURE: byte := 0xD0

  /** A number and the bytes it takes. */
  datatype Number = Number(value: nat, used: nat)

  // ---- back-references -----------------------------------------------------------------

  /** A literal, an escaped 0xFE, or a copy of earlier raw bytes, and where the next token starts. A length
      of 0 counts down through 255: it copies 256 bytes. */
  function Token(data: seq<byte>, loc: nat): (r: Option<(seq<byte>, nat)>)
    ensures r.Some? ==> |r.value.0| >= 1 && loc < r.value.1 <= |data|
  {
    if loc >= |data| then None
    else if data[loc] != BLOCK_CODE then Some(([data[loc]], loc + 1))
    else if loc + 1 >= |data| then None
    else if data[loc + 1] == BLOCK_CODE then Some(([BLOCK_CODE], loc + 2))
    else if loc + 3 >= |data| then None
    else
      var backup := data[loc + 1] as nat * 256 + data[loc + 2] as nat;
      var length := if data[loc + 3] == 0 then 256 else data[loc + 3] as nat;
      if backup > loc || loc - backup + length > |data| then None
      else Some((data[loc - backup..loc - backup + length], loc + 4))
  }

  /** The expansion of the tokens from `loc` up to `end`. */
  function Expand(data: seq<byte>, loc: nat, end: nat): Option<seq<byte>>
    decreases end - loc
  {
    if loc == end then Some([])
    else if loc > end then None
    else
      match Token(data, loc)
      case None => None
      case Some((bytes, next)) =>
        match Expand(data, next, end)
        case None => None
        case Some(rest) => Some(bytes + rest)
  }

  /** Where a reader is: in the tokens at `loc`, with `copyLength` bytes still to copy from `copyFrom`. */
  datatype Cursor = Cursor(loc: nat, copyFrom: nat, copyLength: nat)

  /** What is left to read: the rest of the current copy, then the expansion of the tokens to come. */
  function Remaining(data: seq<byte>, c: Cursor, end: nat): Option<seq<byte>> {
    if c.copyFrom + c.copyLength > |data| then None
    else
      match Expand(data, c.loc, end)
      case None => None
      case Some(rest) => Some(data[c.copyFrom..c.copyFrom + c.copyLength] + rest)
  }

  // ---- variable-length numbers ----------------------------------------------------------

  /** Seven bits a byte, most significant first, the last byte below 0x80; the value wraps at 32 bits. */
  function VarLenFrom(value: nat, bytes: seq<byte>): (r: Option<Number>)
    ensures r.Some? ==> r.value.value < WORD && 1 <= r.value.used <= |bytes|
    decreases |bytes|
  {
    if |bytes| == 0 then None
    else
      var v := (value * 128 + bytes[0] as nat % 128) % WORD;
      if bytes[0] < 0x80 then Some(Number(v, 1))
      else
        match VarLenFrom(v, bytes[1..])
        case None => None
        case Some(more) => Some(more.(used := more.used + 1))
  }

  function VarLen(bytes: seq<byte>): (r: Option<Number>)
    ensures r.Some? ==> r.value.value < WORD && 1 <= r.value.used <= |bytes|
  {
    VarLenFrom(0, bytes)
  }

  /** The continuation bytes of a number: every one has its top bit set. */
  function Continued(n: nat): seq<byte> {
    if n == 0 then [] else Continued(n / 128) + [(128 + n % 128) as byte]
  }

  function EncodeVarLen(n: nat): seq<byte> {
    Continued(n / 128) + [(n % 128) as byte]
  }

  function Plus(used: nat, r: Option<Number>): Option<Number> {
    if r.None? then None else Some(Number(r.value.value, used + r.value.used))
  }

  lemma ReadByte(value: nat, b: byte, low: nat, rest: seq<byte>)
    requires low == b as nat % 128
    ensures b < 0x80 ==> VarLenFrom(value, [b] + rest) == Some(Number((value * 128 + low) % WORD, 1))
    ensures b >= 0x80 ==> VarLenFrom(value, [b] + rest) == Plus(1, VarLenFrom((value * 128 + low) % WORD, rest))
  {
    assert ([b] + rest)[1..] == rest;
  }

  lemma LowBits(n: nat)
    ensures (128 + n % 128) % 128 == n % 128 && n / 128 * 128 + n % 128 == n
  {}

  lemma {:induction false} ReadContinued(n: nat, rest: seq<byte>)
    requires n < WORD
    ensures VarLenFrom(0, Continued(n) + rest) == Plus(|Continued(n)|, VarLenFrom(n, rest))
  {
    hide VarLenFrom;
    if n == 0 {
      assert Continued(n) + rest == rest;
    } else {
      var last := (128 + n % 128) as byte;
      LowBits(n);
      assert Continued(n) + rest == Continued(n / 128) + ([last] + rest);
      ReadContinued(n / 128, [last] + rest);
      ReadByte(n / 128, last, n % 128, rest);
    }
  }

  /** Reading an encoded number gives it back and leaves what follows. */
  lemma VarLenRoundTrip(n: nat, rest: seq<byte>)
    requires n < WORD
    ensures VarLen(EncodeVarLen(n) + rest) == Some(Number(n, |EncodeVarLen(n)|))
  {
    hide VarLenFrom, Continued;
    var last := (n % 128) as byte;
    LowBits(n);
    assert EncodeVarLen(n) + rest == Continued(n / 128) + ([last] + rest);
    ReadContinued(n / 128, [last] + rest);
    ReadByte(n / 128, last, n % 128, rest);
  }

  function Pow128(k: nat): (p: nat)
    ensures p > 0
  {
    if k == 0 then 1 else 128 * Pow128(k - 1)
  }

  lemma {:induction false} ContinuedLength(n: nat, k: nat)
    requires n < Pow128(k)
    ensures |Continued(n)| <= k
  {
    if n > 0 {
      ContinuedLength(n / 128, k - 1);
    }
  }

  lemma Scale128(v: nat, value: nat, p: nat)
    requires v < (value + 1) * 128
    ensures (v + 1) * p <= (value + 1) * (128 * p)
  {
    ProductMonotone(v + 1, (value + 1) * 128, p);
    Regroup(value + 1, p);
  }

  lemma Regroup(a: nat, p: nat)
    ensures a * 128 * p == a * (128 * p)
  {}

  /** A number read in so many bytes has at most seven bits for each. */
  lemma {:induction false} ReadBelow(value: nat, bytes: seq<byte>)
    requires VarLenFrom(value, bytes).Some?
    ensures var r := VarLenFrom(value, bytes).value; r.value < (value + 1) * Pow128(r.used)
    decreases |bytes|
  {
    var v := (value * 128 + bytes[0] as nat % 128) % WORD;
    var r := VarLenFrom(value, bytes).value;
    assert v < (value + 1) * 128;
    if bytes[0] < 0x80 {
      assert Pow128(1) == 128 * Pow128(0);
    } else {
      ReadBelow(v, bytes[1..]);
      Scale128(v, value, Pow128(r.used - 1));
    }
  }

  /** No spelling of a number is shorter than its encoding. */
  lemma ShortestSpelling(bytes: seq<byte>)
    requires VarLen(bytes).Some?
    ensures |EncodeVarLen(VarLen(bytes).value.value)| <= VarLen(bytes).value.used
  {
    var r := VarLen(bytes).value;
    ReadBelow(0, bytes);
    hide VarLenFrom;
    ContinuedLength(r.value / 128, r.used - 1);
  }

  // ---- events ----------------------------------------------------------------------------

  datatype Message =
    | Midi(status: byte, byte1: byte, byte2: byte, duration: nat)
    | Tempo(hi: byte, mid: byte, lo: byte)
    | LoopStart
    | EndOfTrack
    | UnknownMeta

  /** One message, the bytes it takes, and the running status after it. */
  datatype Decoded = Decoded(message: Message, used: nat, status: byte)

  function Family(status: byte): byte {
    status / 16 * 16
  }

  function DecodeMidi(status: byte, byte1: byte, bytes: seq<byte>, used: nat, running: byte): (r: Option<Decoded>)
    requires used <= |bytes|
    ensures r.Some? ==> used <= r.value.used <= |bytes| && r.value.status == running && r.value.message.Midi?
  {
    if Family(status) == PROGRAM_CHANGE || Family(status) == CHANNEL_PRESSURE then
      Some(Decoded(Midi(status, byte1, 0, 0), used, running))
    else if used >= |bytes| then None
    else if Family(status) != NOTE_ON then
      Some(Decoded(Midi(status, byte1, bytes[used], 0), used + 1, running))
    else
      match VarLen(bytes[used + 1..])
      case None => None
      case Some(d) => Some(Decoded(Midi(status, byte1, bytes[used], d.value), used + 1 + d.used, running))
  }

  function DecodeMeta(bytes: seq<byte>, running: byte): (r: Option<Decoded>)
    ensures r.Some? ==> 2 <= r.value.used <= |bytes|
  {
    if |bytes| < 2 then None
    else if bytes[1] == META_TEMPO then
      (if |bytes| < 5 then None else Some(Decoded(Tempo(bytes[2], bytes[3], bytes[4]), 5, 0)))
    else if bytes[1] == META_EOT then Some(Decoded(EndOfTrack, 2, running))
    else if bytes[1] == LOOPSTART_CODE then
      (if |bytes| < 4 then None else Some(Decoded(LoopStart, 4, 0)))
    else if bytes[1] == LOOPEND_CODE then None
    else Some(Decoded(UnknownMeta, 2, running))
  }

  /** A byte of 0x80 or more is a new status; anything less continues the running one. */
  function Decode(bytes: seq<byte>, running: byte): (r: Option<Decoded>)
    ensures r.Some? ==> 1 <= r.value.used <= |bytes|
  {
    if |bytes| == 0 then None
    else if bytes[0] == META then DecodeMeta(bytes, running)
    else if bytes[0] >= 0x80 then
      (if |bytes| < 2 then None else DecodeMidi(bytes[0], bytes[1], bytes, 2, bytes[0]))
    else DecodeMidi(running, bytes[0], bytes, 1, running)
  }

  /** A message and the absolute tick it is due at. */
  datatype Due = Due(tick: nat, message: Message)

  /** The rest of a track, whose next message is due at tick `at`. Only a whole track parses: it ends with an
      end-of-track message, and `more` asks for a number even after that. */
  function Parse(bytes: seq<byte>, running: byte, at: nat, more: bool): Option<seq<Due>>
    decreases |bytes|
  {
    match Decode(bytes, running)
    case None => None
    case Some(d) =>
      var rest := bytes[d.used..];
      var first := Due(at, d.message);
      if d.message.UnknownMeta? then Then(first, Parse(rest, d.status, at, more))
      else if d.message.EndOfTrack? then (if more && VarLen(rest).None? then None else Some([first]))
      else
        match VarLen(rest)
        case None => None
        case Some(delta) => Then(first, Parse(rest[delta.used..], d.status, at + delta.value, more))
  }

  /** What the first step of a parse says about the rest of it. */
  lemma ParseStep(bytes: seq<byte>, running: byte, at: nat, more: bool)
    requires Parse(bytes, running, at, more).Some?
    ensures Decode(bytes, running).Some?
    ensures var events, d := Parse(bytes, running, at, more).value, Decode(bytes, running).value;
            var rest := bytes[d.used..];
            && |events| > 0 && events[0] == Due(at, d.message)
            && (!d.message.UnknownMeta? && (d.message.EndOfTrack? ==> more) ==> VarLen(rest).Some?)
            && (if d.message.EndOfTrack? then events[1..] == []
                else if d.message.UnknownMeta? then Parse(rest, d.status, at, more) == Some(events[1..])
                else var delta := VarLen(rest).value;
                     Parse(rest[delta.used..], d.status, at + delta.value, more) == Some(events[1..]))
  {
    hide Decode, VarLen;
  }

  function Then(first: Due, rest: Option<seq<Due>>): Option<seq<Due>> {
    if rest.None? then None else Some([first] + rest.value)
  }

  ghost predicate Sorted(events: seq<Due>) {
    forall i, j :: 0 <= i < j < |events| ==> events[i].tick <= events[j].tick
  }

  /** Starts at its first tick, never goes back, and has exactly one end of track, at its end. */
  ghost predicate Shapely(events: seq<Due>, at: nat) {
    && |events| > 0 && events[0].tick == at && Sorted(events)
    && (forall i :: 0 <= i < |events| ==> (events[i].message.EndOfTrack? <==> i == |events| - 1))
  }

  lemma ThenShapely(first: Due, rest: seq<Due>, at: nat)
    requires Shapely(rest, at) && first.tick <= at && !first.message.EndOfTrack?
    ensures Shapely([first] + rest, first.tick)
  {
    var events := [first] + rest;
    assert forall i :: 0 < i < |events| ==> events[i] == rest[i - 1];
    assert forall j :: 0 < j < |rest| ==> rest[0].tick <= rest[j].tick;
  }

  lemma {:induction false} ParseShape(bytes: seq<byte>, running: byte, at: nat, more: bool)
    requires Parse(bytes, running, at, more).Some?
    ensures Shapely(Parse(bytes, running, at, more).value, at)
    decreases |bytes|
  {
    hide Decode, VarLen, Shapely;
    var d := Decode(bytes, running).value;
    var rest := bytes[d.used..];
    if d.message.UnknownMeta? {
      ParseShape(rest, d.status, at, more);
      ThenShapely(Due(at, d.message), Parse(rest, d.status, at, more).value, at);
    } else if d.message.EndOfTrack? {
      EndShapely(Due(at, d.message));
    } else {
      var delta := VarLen(rest).value;
      ParseShape(rest[delta.used..], d.status, at + delta.value, more);
      ThenShapely(Due(at, d.message), Parse(rest[delta.used..], d.status, at + delta.value, more).value,
                  at + delta.value);
    }
  }

  lemma EndShapely(end: Due)
    requires end.message.EndOfTrack?
    ensures Shapely([end], end.tick)
  {}
}
