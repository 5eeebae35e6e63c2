/** Byte order repairs in place (platform/asset_swap.c), on a little-endian host: a blob whose layout depends
    on its own data is swapped field by field. */
module AssetSwap {
  import opened Words

  // ---- swapping primitives ------------------------------------------------------------------

  method Sw16(p: array<byte>, off: nat)
    requires off + 2 <= p.Length
    modifies p
    ensures p[off] == old(p[off + 1]) && p[off + 1] == old(p[off])
    ensures forall k :: 0 <= k < p.Length && k != off && k != off + 1 ==> p[k] == old(p[k])
  {
    var t := p[off];
    p[off] := p[off + 1];
    p[off + 1] := t;
  }

  method Sw32(p: array<byte>, off: nat)
    requires off + 4 <= p.Length
    modifies p
    ensures p[off] == old(p[off + 3]) && p[off + 1] == old(p[off + 2])
    ensures p[off + 2] == old(p[off + 1]) && p[off + 3] == old(p[off])
    ensures forall k :: 0 <= k < p.Length && !(off <= k < off + 4) ==> p[k] == old(p[k])
  {
    var t := p[off];
    p[off] := p[off + 3];
    p[off + 3] := t;
    t := p[off + 1];
    p[off + 1] := p[off + 2];
    p[off + 2] := t;
  }

  /** The other byte of the halfword k is in, for halfwords laid out from `from`. */
  function Flip(k: int, from: int): int {
    if (k - from) % 2 == 0 then k + 1 else k - 1
  }

  /** Where byte k comes from when `count` halfwords from `from` are swapped. */
  function FlipIn(k: int, from: int, count: nat): int {
    if from <= k < from + 2 * count then Flip(k, from) else k
  }

  lemma FlipGrows(k: int, from: int, count: nat)
    ensures FlipIn(k, from, count + 1) ==
            if k == from + 2 * count then k + 1 else if k == from + 2 * count + 1 then k - 1 else FlipIn(k, from, count)
  {}

  lemma FlipStays(k: int, from: int, count: nat, size: nat)
    requires 0 <= k < size && 0 <= from && from + 2 * count <= size
    ensures 0 <= FlipIn(k, from, count) < size
  {}

  lemma FlipNone(k: int, from: int)
    ensures FlipIn(k, from, 0) == k
  {}

  ghost predicate FlippedAt(p: seq<byte>, before: seq<byte>, off: nat, count: nat, k: nat)
    requires k < |p|
  {
    0 <= FlipIn(k, off, count) < |before| && p[k] == before[FlipIn(k, off, count)]
  }

  /** p is `before` with `count` halfwords from `off` swapped. */
  ghost predicate Flipped(p: seq<byte>, before: seq<byte>, off: nat, count: nat) {
    |p| == |before| && forall k :: 0 <= k < |p| ==> FlippedAt(p, before, off, count, k)
  }

  /** One more halfword, where nothing had been touched yet. */
  lemma FlippedStep(before: seq<byte>, mid: seq<byte>, after: seq<byte>, off: nat, i: nat)
    requires |mid| == |before| == |after| && off + 2 * i + 2 <= |before|
    requires Flipped(mid, before, off, i)
    requires after[off + 2 * i] == mid[off + 2 * i + 1] == before[off + 2 * i + 1]
    requires after[off + 2 * i + 1] == mid[off + 2 * i] == before[off + 2 * i]
    requires forall k :: 0 <= k < |mid| && k != off + 2 * i && k != off + 2 * i + 1 ==> after[k] == mid[k]
    ensures Flipped(after, before, off, i + 1)
  {
    hide FlipIn;
    var next := i + 1;
    forall k | 0 <= k < |after| ensures FlippedAt(after, before, off, next, k) {
      FlipGrows(k, off, i);
      FlipStays(k, off, i + 1, |after|);
      assert FlippedAt(mid, before, off, i, k);
    }
  }

  lemma FlippedNone(before: seq<byte>, off: nat)
    ensures Flipped(before, before, off, 0)
  {
    forall k | 0 <= k < |before| ensures FlippedAt(before, before, off, 0, k) {
      FlipNone(k, off);
    }
  }

  method Sw16Arr(p: array<byte>, off: nat, count: nat)
    requires off + 2 * count <= p.Length
    modifies p
    ensures Flipped(p[..], old(p[..]), off, count)
  {
    hide Flipped;
    ghost var before := p[..];
    FlippedNone(before, off);
    for i := 0 to count
      invariant Flipped(p[..], before, off, i)
      invariant forall k :: off + 2 * i <= k < p.Length ==> p[k] == before[k]
    {
      ghost var mid := p[..];
      Sw16(p, off + i * 2);
      FlippedStep(before, mid, p[..], off, i);
    }
  }

  /** A signed 32-bit value stored most significant byte first. */
  function BigEndian32(a: byte, b: byte, c: byte, d: byte): int {
    ToS32(a as int * 0x100_0000 + b as int * 0x1_0000 + c as int * 0x100 + d as int)
  }

  method Rd32(p: array<byte>, off: nat) returns (v: int)
    requires off + 4 <= p.Length
    ensures v == BigEndian32(p[off + 3], p[off + 2], p[off + 1], p[off])
  {
    v := ToS32(p[off] as int + p[off + 1] as int * 0x100 +
               p[off + 2] as int * 0x1_0000 + p[off + 3] as int * 0x100_0000);
  }

  function Half(low: byte, high: byte): (v: nat)
    ensures v < 0x1_0000
  {
    low as nat + high as nat * 0x100
  }

  predicate InBounds(off: nat, len: nat, size: nat) {
    off <= size && len <= size - off
  }

  // ---- object animation ---------------------------------------------------------------------

  const PREFIX: nat := 16
  const HEADER: nat := 12

  /** A keyframe: a 12-byte header and three signed bytes for every animated vertex. */
  function KeyframeSize(n: nat): (size: nat)
    ensures size >= HEADER
  {
    n * 3 + 12
  }

  /** Where header m starts. */
  function HeaderAt(n: nat, m: int): int {
    KeyframeSize(n) * m - 8
  }

  /** The bytes of a header that hold its four halfwords: x, y, z, and the tilt at its end. */
  predicate InHeaderField(r: int) {
    0 <= r < 6 || 10 <= r < 12
  }

  /** Where byte k comes from, with headers 2 to `last` inside the blob swapped. */
  function Source(k: int, n: nat, last: int, size: nat): int {
    if k < 4 then 3 - k
    else if k < PREFIX then
      (if PREFIX <= size && InHeaderField(k - 4) then Flip(k, 4) else k)
    else if k < PREFIX + 6 * n then
      (if PREFIX + 6 * n <= size then Flip(k, PREFIX) else k)
    else
      var m, r := (k + 8) / KeyframeSize(n), (k + 8) % KeyframeSize(n);
      if m <= last && InHeaderField(r) && k - r + HEADER <= size then (if r % 2 == 0 then k + 1 else k - 1) else k
  }

  /** Header 2 starts exactly where the full-precision table of frame 0 ends, and each header is its own length
      and the 3n delta bytes before the next. */
  lemma HeadersLineUp(n: nat, m: nat)
    ensures HeaderAt(n, 2) == PREFIX + 6 * n
    ensures HeaderAt(n, m + 1) == HeaderAt(n, m) + HEADER + 3 * n
  {
    assert KeyframeSize(n) * (m + 1) == KeyframeSize(n) * m + KeyframeSize(n);
  }

  /** Which header, if any, a byte past the prefix belongs to. */
  lemma PlaceInHeader(n: nat, m: nat, r: nat)
    requires r < KeyframeSize(n)
    ensures var k := HeaderAt(n, m) + r; (k + 8) / KeyframeSize(n) == m && (k + 8) % KeyframeSize(n) == r
  {
    var size := KeyframeSize(n);
    assert size * m == m * size;
    QuotientIs(size * m + r, m, r, size);
  }

  /** Where a byte of a header at `at` comes from when the header alone is swapped. */
  function InHeader(k: int, at: int): int {
    if InHeaderField(k - at) then (if (k - at) % 2 == 0 then k + 1 else k - 1) else k
  }

  ghost predicate SwappedHeader(after: seq<byte>, before: seq<byte>, at: nat) {
    && |after| == |before| && at + HEADER <= |before|
    && forall k :: 0 <= k < |after| ==> 0 <= InHeader(k, at) < |before| && after[k] == before[InHeader(k, at)]
  }

  method SwapHeader(p: array<byte>, at: nat)
    requires at + HEADER <= p.Length
    modifies p
    ensures SwappedHeader(p[..], old(p[..]), at)
  {
    Sw16(p, at);
    Sw16(p, at + 2);
    Sw16(p, at + 4);
    Sw16(p, at + 10);
  }

  ghost predicate RepairedAt(p: seq<byte>, before: seq<byte>, n: nat, last: int, k: nat)
    requires k < |p|
  {
    0 <= Source(k, n, last, |before|) < |before| && p[k] == before[Source(k, n, last, |before|)]
  }

  /** The blob with its prefix and its headers up to `last` swapped, every other byte where it was. */
  ghost predicate Repaired(p: seq<byte>, before: seq<byte>, n: nat, last: int) {
    |p| == |before| && forall k :: 0 <= k < |p| ==> RepairedAt(p, before, n, last, k)
  }

  /** Past the prefix, header numbers start at 2. */
  lemma PastPrefix(n: nat, k: nat)
    requires k >= PREFIX + 6 * n
    ensures (k + 8) / KeyframeSize(n) >= 2
  {
    var size, m := KeyframeSize(n), (k + 8) / KeyframeSize(n);
    if m <= 1 {
      TimesAtMost(size, m, 1);
    }
  }

  lemma TimesAtMost(a: nat, b: nat, c: nat)
    requires b <= c
    ensures a * b <= a * c
  {}

  ghost predicate Reversed4(after: seq<byte>, before: seq<byte>) {
    && |after| == |before| >= 4
    && after[0] == before[3] && after[1] == before[2] && after[2] == before[1] && after[3] == before[0]
    && forall k :: 4 <= k < |after| ==> after[k] == before[k]
  }

  lemma PrefixRepaired(before: seq<byte>, a: seq<byte>, b: seq<byte>, c: seq<byte>, n: nat)
    requires Reversed4(a, before)
    requires if PREFIX <= |before| then SwappedHeader(b, a, 4) else b == a
    requires if PREFIX + 6 * n <= |before| then Flipped(c, b, PREFIX, 3 * n) else c == b
    ensures Repaired(c, before, n, 1)
  {
    var one := 1;
    forall k | 0 <= k < |c| ensures RepairedAt(c, before, n, one, k) {
      if k >= PREFIX + 6 * n {
        PastPrefix(n, k);
      }
      if PREFIX + 6 * n <= |before| {
        assert FlippedAt(c, b, PREFIX, 3 * n, k);
      }
    }
  }

  /** Where a byte past the prefix lies among the headers. */
  lemma HeaderOf(n: nat, k: nat)
    requires k >= PREFIX
    ensures k == HeaderAt(n, (k + 8) / KeyframeSize(n)) + (k + 8) % KeyframeSize(n)
  {}

  lemma HeaderRepaired(before: seq<byte>, p: seq<byte>, q: seq<byte>, n: nat, m: nat)
    requires m >= 2 && Repaired(p, before, n, m - 1) && HeaderAt(n, m) >= PREFIX + 6 * n
    requires SwappedHeader(q, p, HeaderAt(n, m))
    ensures Repaired(q, before, n, m)
  {
    hide KeyframeSize;
    var at := HeaderAt(n, m);
    forall k | 0 <= k < |q| ensures RepairedAt(q, before, n, m, k) {
      HeaderByte(before, p, q, n, m, k);
    }
  }

  lemma HeaderByte(before: seq<byte>, p: seq<byte>, q: seq<byte>, n: nat, m: nat, k: nat)
    requires m >= 2 && Repaired(p, before, n, m - 1) && HeaderAt(n, m) >= PREFIX + 6 * n
    requires SwappedHeader(q, p, HeaderAt(n, m)) && k < |q|
    ensures RepairedAt(q, before, n, m, k)
  {
    var at := HeaderAt(n, m);
    if at <= k < at + HEADER {
      PlaceInHeader(n, m, k - at);
      var from := InHeader(k, at);
      PlaceInHeader(n, m, from - at);
      assert RepairedAt(p, before, n, m - 1, from);
    } else {
      if k >= PREFIX {
        OutsideHeader(n, m, k);
      }
      assert RepairedAt(p, before, n, m - 1, k);
      SourceSame(k, n, m, |before|);
    }
  }

  lemma OutsideHeader(n: nat, m: nat, k: nat)
    requires k >= PREFIX && !(HeaderAt(n, m) <= k < HeaderAt(n, m) + HEADER)
    ensures (k + 8) / KeyframeSize(n) == m ==> (k + 8) % KeyframeSize(n) >= HEADER
  {
    HeaderOf(n, k);
  }

  lemma SourceSame(k: nat, n: nat, m: nat, size: nat)
    requires m >= 1
    requires k >= PREFIX && (k + 8) / KeyframeSize(n) == m ==> (k + 8) % KeyframeSize(n) >= HEADER
    ensures Source(k, n, m, size) == Source(k, n, m - 1, size)
  {
    hide KeyframeSize;
  }

  /** Once a header does not fit, no later one does. */
  lemma NoMoreHeaders(before: seq<byte>, p: seq<byte>, n: nat, m: nat, last: nat)
    requires 2 <= m <= last + 1 && Repaired(p, before, n, m - 1)
    requires m <= last ==> HeaderAt(n, m) + HEADER > |before|
    ensures Repaired(p, before, n, last)
  {
    forall k | 0 <= k < |p| ensures RepairedAt(p, before, n, last, k) {
      assert RepairedAt(p, before, n, m - 1, k);
      if k >= PREFIX {
        var h := (k + 8) / KeyframeSize(n);
        HeaderOf(n, k);
        if m <= h {
          TimesAtMost(KeyframeSize(n), m, h);
        }
      }
    }
  }

  /** Counts below the 32-bit wrap. */
  predicate NoWrap(n: nat, size: nat) {
    6 * n < WORD && size + KeyframeSize(n) < WORD
  }

  /** How many keyframes the blob says it has; header 1 would be frame 0's own. */
  function LastHeader(before: seq<byte>): nat
    requires |before| >= 4
  {
    var length := BigEndian32(before[0], before[1], before[2], before[3]);
    if length < 1 then 1 else length
  }

  /** The keyframe count, swapped and read. */
  method SwapCount(data: array<byte>) returns (count: int)
    requires data.Length >= 4
    modifies data
    ensures Reversed4(data[..], old(data[..]))
    ensures count == BigEndian32(old(data[0]), old(data[1]), old(data[2]), old(data[3]))
  {
    hide BigEndian32;
    Sw32(data, 0);
    count := Rd32(data, 0);
  }

  /** Frame 0's offset header, if it fits. */
  method SwapFirstHeader(data: array<byte>)
    modifies data
    ensures if PREFIX <= data.Length then SwappedHeader(data[..], old(data[..]), 4) else data[..] == old(data[..])
  {
    hide SwappedHeader;
    if InBounds(4, 12, data.Length) {
      SwapHeader(data, 4);
    }
  }

  /** Frame 0's full-precision table, if it fits. */
  method SwapTable(data: array<byte>, n: nat)
    modifies data
    ensures if PREFIX + 6 * n <= data.Length then Flipped(data[..], old(data[..]), PREFIX, 3 * n)
            else data[..] == old(data[..])
  {
    hide Flipped;
    FlippedNone(data[..], PREFIX);
    if n > 0 && InBounds(16, n * 3 * 2, data.Length) {
      Sw16Arr(data, 16, n * 3);
    }
  }

  /** The keyframe count, frame 0's header, and frame 0's full-precision table. */
  method SwapPrefix(data: array<byte>, n: nat) returns (animLength: int)
    requires data.Length >= 4
    modifies data
    ensures Repaired(data[..], old(data[..]), n, 1)
    ensures animLength == BigEndian32(old(data[0]), old(data[1]), old(data[2]), old(data[3]))
  {
    hide Repaired, SwappedHeader, Flipped, BigEndian32, Reversed4;
    ghost var before := data[..];
    animLength := SwapCount(data);
    ghost var a := data[..];
    SwapFirstHeader(data);
    ghost var b := data[..];
    SwapTable(data, n);
    PrefixRepaired(before, a, b, data[..], n);
  }

  /** The header m that is next, if it fits. */
  method SwapNext(data: array<byte>, n: nat, m: nat, ghost before: seq<byte>) returns (fits: bool)
    requires m >= 2 && Repaired(data[..], before, n, m - 1)
    modifies data
    ensures fits <==> HeaderAt(n, m) + HEADER <= |before|
    ensures fits ==> Repaired(data[..], before, n, m)
    ensures !fits ==> data[..] == old(data[..])
  {
    hide SwappedHeader, RepairedAt;
    var header := (n * 3 + 12) * m - 8;
    TimesAtMost(n * 3 + 12, 2, m);
    fits := InBounds(header, 12, data.Length);
    if fits {
      ghost var mid := data[..];
      SwapHeader(data, header);
      HeaderRepaired(before, mid, data[..], n, m);
    }
  }

  /** Repair an animation blob for n animated vertices. */
  method ObjectAnimation(data: array<byte>, n: nat)
    requires NoWrap(n, data.Length)
    modifies data
    ensures data.Length < 4 ==> data[..] == old(data[..])
    ensures data.Length >= 4 ==> Repaired(data[..], old(data[..]), n, LastHeader(old(data[..])))
  {
    hide Repaired, SwappedHeader, BigEndian32, NoWrap;
    if data.Length < 4 {
      return;
    }
    ghost var before := data[..];
    var animLength := SwapPrefix(data, n);
    var m := 2;
    while m <= animLength
      invariant 2 <= m <= LastHeader(before) + 1
      invariant Repaired(data[..], before, n, m - 1)
      decreases animLength - m
    {
      var fits := SwapNext(data, n, m, before);
      if !fits {
        break;
      }
      m := m + 1;
    }
    NoMoreHeaders(before, data[..], n, m, LastHeader(before));
  }

  // ---- what that repair is -------------------------------------------------------------------

  lemma FlipTwice(k: int, from: int)
    ensures Flip(Flip(k, from), from) == k
  {}

  lemma FlipWithin(k: int, from: int, count: nat)
    requires from <= k < from + 2 * count
    ensures from <= Flip(k, from) < from + 2 * count
  {}

  lemma FlipField(k: int)
    requires InHeaderField(k - 4)
    ensures InHeaderField(Flip(k, 4) - 4)
  {}

  lemma PrefixInvolution(k: nat, n: nat, last: int, size: nat)
    requires k < size && size >= 4 && k < PREFIX + 6 * n
    ensures 0 <= Source(k, n, last, size) < size
    ensures Source(Source(k, n, last, size), n, last, size) == k
  {
    hide KeyframeSize, Flip, InHeaderField;
    if k >= PREFIX {
      FlipTwice(k, PREFIX);
      FlipWithin(k, PREFIX, 3 * n);
    } else if k >= 4 {
      FlipTwice(k, 4);
      FlipWithin(k, 4, 6);
      if InHeaderField(k - 4) {
        FlipField(k);
      }
    }
  }

  lemma HeaderInvolution(k: nat, n: nat, last: int, size: nat, m: nat, r: nat)
    requires k < size && k >= PREFIX + 6 * n && m >= 2 && k == HeaderAt(n, m) + r && r < KeyframeSize(n)
    ensures 0 <= Source(k, n, last, size) < size
    ensures Source(Source(k, n, last, size), n, last, size) == k
  {
    hide KeyframeSize;
    assert KeyframeSize(n) >= HEADER;
    HeaderStarts(n, m);
    PlaceInHeader(n, m, r);
    if InHeaderField(r) {
      PlaceInHeader(n, m, if r % 2 == 0 then r + 1 else r - 1);
    }
  }

  lemma HeaderStarts(n: nat, m: nat)
    requires m >= 2
    ensures HeaderAt(n, m) >= PREFIX + 6 * n
  {
    TimesAtMost(KeyframeSize(n), 2, m);
  }

  /** Each byte is moved at most once, and only within its own field: the repair is its own inverse. */
  lemma SourceInvolution(k: nat, n: nat, last: int, size: nat)
    requires k < size && size >= 4
    ensures 0 <= Source(k, n, last, size) < size
    ensures Source(Source(k, n, last, size), n, last, size) == k
  {
    hide Source, KeyframeSize, HeaderAt;
    if k < PREFIX + 6 * n {
      PrefixInvolution(k, n, last, size);
    } else {
      HeaderOf(n, k);
      PastPrefix(n, k);
      HeaderInvolution(k, n, last, size, (k + 8) / KeyframeSize(n), (k + 8) % KeyframeSize(n));
    }
  }

  /** The signed bytes of every keyframe stay as they are. */
  lemma DeltasUntouched(n: nat, m: nat, j: nat, last: int, size: nat)
    requires m >= 2 && j < 3 * n
    ensures var k := HeaderAt(n, m) + HEADER + j; Source(k, n, last, size) == k
  {
    PlaceInHeader(n, m, HEADER + j);
    TimesAtMost(KeyframeSize(n), 2, m);
  }

  /** The two bytes at `at` have changed places. */
  ghost predicate Exchanged(after: seq<byte>, before: seq<byte>, at: int)
    requires |after| == |before|
  {
    0 <= at && at + 2 <= |before| && after[at] == before[at + 1] && after[at + 1] == before[at]
  }

  lemma ByteFrom(after: seq<byte>, before: seq<byte>, n: nat, last: int, k: nat, from: nat)
    requires Repaired(after, before, n, last) && k < |before| && from == Source(k, n, last, |before|)
    ensures from < |before| && after[k] == before[from]
  {
    hide Source;
    assert RepairedAt(after, before, n, last, k);
  }

  /** The start of a repaired blob, field by field: the count turned round; the first header's halfwords at 4, 6,
      8 and 14 and every halfword of the table at 16 exchanged, if they fit; the rest of the header as it was. */
  lemma PrefixSpelled(after: seq<byte>, before: seq<byte>, n: nat, last: int, i: nat)
    requires Repaired(after, before, n, last) && |before| >= 4
    ensures after[0] == before[3] && after[1] == before[2] && after[2] == before[1] && after[3] == before[0]
    ensures |before| >= 16 ==>
              && Exchanged(after, before, 4) && Exchanged(after, before, 6) && Exchanged(after, before, 8)
              && Exchanged(after, before, 14) && after[10..14] == before[10..14]
    ensures i < 3 * n && 16 + 6 * n <= |before| ==> Exchanged(after, before, 16 + 2 * i)
    ensures 4 <= i < |before| < 16 ==> after[i] == before[i]
    ensures 16 <= i < |before| < 16 + 6 * n ==> after[i] == before[i]
  {
    hide Repaired, KeyframeSize, HeaderAt;
    SameLength(after, before, n, last);
    forall k | 0 <= k < 4 ensures after[k] == before[3 - k] {
      ByteFrom(after, before, n, last, k, 3 - k);
    }
    if |before| >= 16 {
      forall k: nat | 4 <= k < 16 ensures after[k] == before[Source(k, n, last, |before|)] {
        ByteFrom(after, before, n, last, k, Source(k, n, last, |before|));
      }
    }
    if i < 3 * n && 16 + 6 * n <= |before| {
      ByteFrom(after, before, n, last, 16 + 2 * i, 17 + 2 * i);
      ByteFrom(after, before, n, last, 17 + 2 * i, 16 + 2 * i);
    }
    if 4 <= i < |before| < 16 || 16 <= i < |before| < 16 + 6 * n {
      ByteFrom(after, before, n, last, i, i);
    }
  }

  lemma SameLength(after: seq<byte>, before: seq<byte>, n: nat, last: int)
    requires Repaired(after, before, n, last)
    ensures |after| == |before|
  {}

  /** Header m, at (3n + 12)m - 8, if it is one of those there are and fits: the halfwords at 0, 2, 4 and 10
      exchanged, the four bytes between and the 3n behind it as they were. One that does not fit, or that there
      is not, is left alone. */
  lemma HeaderSpelled(after: seq<byte>, before: seq<byte>, n: nat, m: nat, i: nat, at: nat)
    requires |before| >= 4 && Repaired(after, before, n, LastHeader(before)) && m >= 2
    requires at + 8 == (3 * n + 12) * m
    ensures |after| == |before|
    ensures var there := m <= CountOf(before);
            && (there && at + 12 <= |before| ==>
                  && Exchanged(after, before, at) && Exchanged(after, before, at + 2)
                  && Exchanged(after, before, at + 4) && Exchanged(after, before, at + 10)
                  && after[at + 6..at + 10] == before[at + 6..at + 10])
            && (i < 3 * n && at + 12 + i < |before| ==> after[at + 12 + i] == before[at + 12 + i])
            && (i < 12 && at + i < |before| && (!there || at + 12 > |before|) ==> after[at + i] == before[at + i])
  {
    hide *;
    var last, size := LastHeader(before), |before|;
    SameLength(after, before, n, last);
    HeaderPlace(n, m);
    CountIs(before);
    if m <= last && at + 12 <= size {
      FieldExchanged(after, before, n, m, last, 0);
      FieldExchanged(after, before, n, m, last, 2);
      FieldExchanged(after, before, n, m, last, 4);
      FieldExchanged(after, before, n, m, last, 10);
      Untouched(after, before, n, m, last, 6);
      Untouched(after, before, n, m, last, 7);
      Untouched(after, before, n, m, last, 8);
      Untouched(after, before, n, m, last, 9);
    }
    if i < 3 * n && at + 12 + i < size {
      Untouched(after, before, n, m, last, 12 + i);
    }
    if i < 12 && at + i < size && (m > last || at + 12 > size) {
      Untouched(after, before, n, m, last, i);
    }
  }

  lemma HeaderPlace(n: nat, m: nat)
    requires m >= 2
    ensures HeaderAt(n, m) == (3 * n + 12) * m - 8 >= 16
  {
    HeaderStarts(n, m);
    TimesTurns(3 * n + 12, m);
  }

  lemma FieldExchanged(after: seq<byte>, before: seq<byte>, n: nat, m: nat, last: nat, r: nat)
    requires Repaired(after, before, n, last) && 2 <= m <= last && |after| == |before|
    requires (r == 0 || r == 2 || r == 4 || r == 10) && HeaderAt(n, m) + 12 <= |before|
    ensures Exchanged(after, before, HeaderAt(n, m) + r)
  {
    hide Repaired, HeaderAt, Source;
    var at := HeaderAt(n, m);
    HeaderStarts(n, m);
    HeaderSource(n, m, r, last, |before|);
    HeaderSource(n, m, r + 1, last, |before|);
    ByteFrom(after, before, n, last, at + r, at + r + 1);
    ByteFrom(after, before, n, last, at + r + 1, at + r);
  }

  lemma Untouched(after: seq<byte>, before: seq<byte>, n: nat, m: nat, last: nat, r: nat)
    requires Repaired(after, before, n, last) && m >= 2 && |after| == |before|
    requires 6 <= r < 10 || 12 <= r < 12 + 3 * n || (r < 12 && (m > last || HeaderAt(n, m) + 12 > |before|))
    requires 0 <= HeaderAt(n, m) && HeaderAt(n, m) + r < |before|
    ensures after[HeaderAt(n, m) + r] == before[HeaderAt(n, m) + r]
  {
    hide Repaired, HeaderAt, Source;
    var at := HeaderAt(n, m);
    HeaderStarts(n, m);
    HeaderSource(n, m, r, last, |before|);
    ByteFrom(after, before, n, last, at + r, at + r);
  }

  lemma TimesTurns(a: nat, b: nat)
    ensures a * b == b * a
  {}

  /** The keyframe count the blob opens with. */
  function CountOf(blob: seq<byte>): int
    requires |blob| >= 4
  {
    var size := blob[0] as int * 0x100_0000 + blob[1] as int * 0x1_0000 + blob[2] as int * 0x100 + blob[3] as int;
    if blob[0] < 0x80 then size else size - 0x1_0000_0000
  }

  lemma CountIs(blob: seq<byte>)
    requires |blob| >= 4
    ensures LastHeader(blob) == if CountOf(blob) < 1 then 1 else CountOf(blob)
  {}

  lemma HeaderSource(n: nat, m: nat, r: nat, last: int, size: nat)
    requires m >= 2 && r < 3 * n + 12 && HeaderAt(n, m) >= PREFIX + 6 * n
    ensures var at := HeaderAt(n, m);
            Source(at + r, n, last, size) ==
            if m <= last && InHeaderField(r) && at + 12 <= size then
              (if r % 2 == 0 then at + r + 1 else at + r - 1)
            else at + r
  {
    PlaceInHeader(n, m, r);
    hide HeaderAt;
  }

  // ---- the cheat table -----------------------------------------------------------------------

  /** The halfword stored most significant byte first at `off`. */
  function BigEndian16(blob: seq<byte>, off: nat): (v: nat)
    requires off + 2 <= |blob|
    ensures v < 0x1_0000
  {
    Half(blob[off + 1], blob[off])
  }

  function IndexBytes(count: nat): nat {
    (1 + count * 3) * 2
  }

  /** A NUL ends the string at `off` inside the blob. */
  ghost predicate Ends(blob: seq<byte>, off: nat) {
    exists k :: off <= k < |blob| && blob[k] == 0
  }

  /** Entry i of the index reaches a string behind the index that ends inside the blob. */
  ghost predicate EntryGood(blob: seq<byte>, count: nat, i: nat)
    requires IndexBytes(count) <= |blob| && i < count * 3
  {
    var offset := BigEndian16(blob, 2 + i * 2);
    IndexBytes(count) <= offset < |blob| && Ends(blob, offset)
  }

  /** The blob describes itself: a count, an index that fits, strings that start right behind it, and every
      offset good. */
  ghost predicate Describes(blob: seq<byte>) {
    |blob| >= 2 &&
    var count := BigEndian16(blob, 0);
    && count > 0 && IndexBytes(count) <= |blob|
    && BigEndian16(blob, 2) == IndexBytes(count)
    && forall i :: 0 <= i < count * 3 ==> EntryGood(blob, count, i)
  }

  /** Halfwords exchanged, one by one. */
  lemma FlippedSpelled(after: seq<byte>, before: seq<byte>, off: nat, count: nat, i: nat)
    requires Flipped(after, before, off, count)
    ensures |after| == |before|
    ensures i < count && off + 2 * i + 2 <= |before| ==> Exchanged(after, before, off + 2 * i)
    ensures i < |before| && !(off <= i < off + 2 * count) ==> after[i] == before[i]
  {
    if i < count && off + 2 * i + 2 <= |before| {
      assert FlippedAt(after, before, off, count, off + 2 * i);
      assert FlippedAt(after, before, off, count, off + 2 * i + 1);
    }
    if i < |before| && !(off <= i < off + 2 * count) {
      assert FlippedAt(after, before, off, count, i);
    }
  }

  /** What a cheat table is: a count c, and 3c offsets, both most significant byte first; the first offset is
      2 + 6c, and each reaches a string behind the index that ends inside the blob. */
  lemma DescribesSpelled(blob: seq<byte>, c: nat, i: nat)
    requires |blob| >= 4 && c == 256 * blob[0] as nat + blob[1] as nat && i < 3 * c
    ensures 2 + 6 * c <= |blob| ==>
              var offset := 256 * blob[2 + 2 * i] as nat + blob[3 + 2 * i] as nat;
              (EntryGood(blob, c, i) <==>
                 2 + 6 * c <= offset < |blob| && exists k :: offset <= k < |blob| && blob[k] == 0)
    ensures Describes(blob) <==>
            && c > 0 && 2 + 6 * c <= |blob| && 256 * blob[2] as nat + blob[3] as nat == 2 + 6 * c
            && forall j :: 0 <= j < 3 * c ==> EntryGood(blob, c, j)
  {}

  /** memchr for a NUL. */
  method HasNul(blob: array<byte>, from: nat) returns (found: bool)
    requires from <= blob.Length
    ensures found <==> Ends(blob[..], from)
  {
    for k := from to blob.Length
      invariant forall j :: from <= j < k ==> blob[j] != 0
    {
      if blob[k] == 0 {
        assert blob[..][k] == 0;
        return true;
      }
    }
    return false;
  }

  /** Swapping the same halfwords twice restores them. */
  lemma FlippedTwice(before: seq<byte>, mid: seq<byte>, after: seq<byte>, off: nat, count: nat)
    requires Flipped(mid, before, off, count) && Flipped(after, mid, off, count)
    ensures after == before
  {
    forall k | 0 <= k < |after| ensures after[k] == before[k] {
      assert FlippedAt(after, mid, off, count, k);
      assert FlippedAt(mid, before, off, count, FlipIn(k, off, count));
      FlipTwice(k, off);
    }
  }

  /** A flipped halfword, read least significant byte first, is the one stored most significant first. */
  lemma FlippedHalf(before: seq<byte>, after: seq<byte>, count: nat, i: nat)
    requires Flipped(after, before, 0, count) && 2 * i + 2 <= |after| && i < count
    ensures Half(after[2 * i], after[2 * i + 1]) == BigEndian16(before, 2 * i)
  {
    assert FlippedAt(after, before, 0, count, 2 * i);
    assert FlippedAt(after, before, 0, count, 2 * i + 1);
  }

  lemma FlippedBehind(before: seq<byte>, after: seq<byte>, count: nat, from: nat)
    requires Flipped(after, before, 0, count) && 2 * count <= from
    ensures Ends(after, from) <==> Ends(before, from)
  {
    forall k | from <= k < |after| ensures after[k] == before[k] {
      assert FlippedAt(after, before, 0, count, k);
    }
  }

  /** Swap the index of a cheat table, or leave the blob exactly as it was. */
  method MiscMagicCodes(blob: array<byte>) returns (ok: bool)
    modifies blob
    ensures ok <==> Describes(old(blob[..]))
    ensures !ok ==> blob[..] == old(blob[..])
    ensures ok ==> Flipped(blob[..], old(blob[..]), 0, 1 + 3 * BigEndian16(old(blob[..]), 0))
  {
    hide Flipped, FlippedAt, FlipIn, Ends;
    if blob.Length < 2 {
      return false;
    }
    ghost var before := blob[..];
    Sw16Arr(blob, 0, 1);
    FlippedHalf(before, blob[..], 1, 0);
    var count := Half(blob[0], blob[1]);
    var indexBytes := (1 + count * 3) * 2;
    if count == 0 || indexBytes > blob.Length {
      ghost var mid := blob[..];
      Sw16Arr(blob, 0, 1);
      FlippedTwice(before, mid, blob[..], 0, 1);
      return false;
    }
    ghost var first := blob[..];
    Sw16Arr(blob, 2, count * 3);
    FlippedJoin(before, first, blob[..], count * 3);
    ghost var swapped := blob[..];
    ok := CheckIndex(blob, count, before);
    if !ok {
      Sw16Arr(blob, 2, count * 3);
      FlippedTwice(first, swapped, blob[..], 2, count * 3);
      ghost var mid := blob[..];
      Sw16Arr(blob, 0, 1);
      FlippedTwice(before, mid, blob[..], 0, 1);
    }
  }

  lemma FlippedJoin(before: seq<byte>, mid: seq<byte>, after: seq<byte>, count: nat)
    requires Flipped(mid, before, 0, 1) && Flipped(after, mid, 2, count)
    ensures Flipped(after, before, 0, 1 + count)
  {
    var all := 1 + count;
    forall k | 0 <= k < |after| ensures FlippedAt(after, before, 0, all, k) {
      assert FlippedAt(after, mid, 2, count, k);
      assert FlippedAt(mid, before, 0, 1, FlipIn(k, 2, count));
    }
  }

  /** The index, already swapped, must point right behind itself and at strings that end. */
  method CheckIndex(blob: array<byte>, count: nat, ghost before: seq<byte>) returns (ok: bool)
    requires count > 0 && IndexBytes(count) <= blob.Length == |before| && count == BigEndian16(before, 0)
    requires Flipped(blob[..], before, 0, 1 + count * 3)
    ensures ok <==> Describes(before)
  {
    hide Flipped, Ends;
    var indexBytes := (1 + count * 3) * 2;
    FlippedHalf(before, blob[..], 1 + count * 3, 1);
    if Half(blob[2], blob[3]) != indexBytes {
      return false;
    }
    for i := 0 to count * 3
      invariant forall j :: 0 <= j < i ==> EntryGood(before, count, j)
    {
      FlippedHalf(before, blob[..], 1 + count * 3, 1 + i);
      var offset := Half(blob[2 + i * 2], blob[3 + i * 2]);
      if offset < indexBytes || offset >= blob.Length {
        assert !EntryGood(before, count, i);
        return false;
      }
      FlippedBehind(before, blob[..], 1 + count * 3, offset);
      var ends := HasNul(blob, offset);
      if !ends {
        assert !EntryGood(before, count, i);
        return false;
      }
    }
    return true;
  }
}
