/** Unsigned 32-bit arithmetic, and remainders in general. */
module Words {

  newtype byte = x: int | 0 <= x < 256

  const WORD: nat := 0x1_0000_0000

  const TWO_31: int := 0x8000_0000

  function Min(a: nat, b: nat): (m: nat)
    ensures m <= a && m <= b && (m == a || m == b)
  {
    if a < b then a else b
  }

  function Max(a: nat, b: nat): (m: nat)
    ensures m >= a && m >= b && (m == a || m == b)
  {
    if a < b then b else a
  }

  /** a - b in unsigned 32-bit arithmetic. */
  function WrapSub(a: nat, b: nat): (r: nat)
    ensures r < WORD
  {
    (a - b) % WORD
  }

  function WrapAdd(a: nat, b: nat): (r: nat)
    ensures r < WORD
  {
    (a + b) % WORD
  }

  /** C division by a positive divisor: truncation toward zero. */
  function TruncDiv(a: int, b: int): int
    requires b > 0
  {
    if a >= 0 then a / b else -(-a / b)
  }

  predicate IsS32(x: int) {
    -TWO_31 <= x < TWO_31
  }

  /** Reading a word as a signed one. */
  function ToS32(x: int): (r: int)
    ensures IsS32(r) && (IsS32(x) ==> r == x)
  {
    var u := x % WORD;
    if u < TWO_31 then u else u - WORD
  }

  lemma ProductMonotone(a: int, b: int, c: nat)
    requires a <= b
    ensures a * c <= b * c
  {
    assert b * c == a * c + (b - a) * c;
  }

  lemma AtLeastOnce(k: int, m: int)
    requires k >= 1 && m > 0
    ensures k * m >= m && (-k) * m <= -m
  {}

  lemma RemainderIs(b: int, q: int, r: int, m: int)
    requires 0 <= r < m && b == q * m + r
    ensures b % m == r
  {
    var k := q - b / m;
    assert k * m == b % m - r;
    if k >= 1 {
      AtLeastOnce(k, m);
    } else if k <= -1 {
      AtLeastOnce(-k, m);
    }
  }

  lemma QuotientIs(b: int, q: int, r: int, m: int)
    requires 0 <= r < m && b == q * m + r
    ensures b / m == q && b % m == r
  {
    RemainderIs(b, q, r, m);
    var k := q - b / m;
    assert k * m == 0;
    if k >= 1 {
      AtLeastOnce(k, m);
    } else if k <= -1 {
      AtLeastOnce(-k, m);
    }
  }

  lemma SameRemainder(a: int, b: int, m: int)
    requires m > 0
    ensures a % m == b % m <==> (b - a) % m == 0
  {
    var d := b - a;
    var q, r := a / m, a % m;
    var e, f := d / m, d % m;
    assert b == (q + e) * m + (r + f);
    if r + f < m {
      RemainderIs(b, q + e, r + f, m);
    } else {
      assert b == (q + e + 1) * m + (r + f - m);
      RemainderIs(b, q + e + 1, r + f - m, m);
    }
  }

  /** Two positions less than a lap apart are in different places. */
  lemma WithinLap(a: int, b: int, m: int)
    requires a < b < a + m
    ensures a % m != b % m
  {
    SameRemainder(a, b, m);
    RemainderIs(b - a, 0, b - a, m);
  }

  /** A remainder by a multiple of m keeps the remainder by m. */
  lemma RemainderOfRemainder(x: int, w: int, m: int)
    requires w > 0 && m > 0 && w % m == 0
    ensures (x % w) % m == x % m
  {
    var q, e := x / w, w / m;
    assert x == q * w + x % w && w == e * m;
    assert x - x % w == (q * e) * m;
    RemainderIs(x - x % w, q * e, 0, m);
    SameRemainder(x % w, x, m);
  }

  /** Adding before or after taking the remainder is the same. */
  lemma RemainderOfSum(x: int, y: int, m: int)
    requires m > 0
    ensures (x % m + y) % m == (x + y) % m
  {
    RemainderIs(x - x % m, x / m, 0, m);
    SameRemainder(x % m + y, x + y, m);
  }

  /** The wrapped difference of two counts is their true difference, while that fits a word. */
  lemma WrapSubExact(a: nat, b: nat)
    requires b <= a < b + WORD
    ensures WrapSub(a % WORD, b % WORD) == a - b
  {
    var x, y := a % WORD, b % WORD;
    var p, q := a / WORD, b / WORD;
    assert x - y == (q - p) * WORD + (a - b);
    RemainderIs(x - y, q - p, a - b, WORD);
  }

  /** A 32-bit index that has counted to `count`, laps aside. */
  ghost predicate CountsTo(index: nat, count: nat) {
    index == count % WORD
  }

  lemma CountOn(index: nat, count: nat, n: nat)
    requires CountsTo(index, count)
    ensures CountsTo(WrapAdd(index, n), count + n)
  {
    RemainderOfSum(count, n, WORD);
  }

  /** The wrapped difference of two counters is the difference of their counts, laps aside. */
  lemma CountDifferenceWraps(a: nat, i: nat, b: nat, j: nat)
    requires CountsTo(a, i) && CountsTo(b, j) && j <= i
    ensures WrapSub(a, b) == (i - j) % WORD
  {
    var p, q := i / WORD, j / WORD;
    assert (i - j) - (a - b) == (p - q) * WORD;
    RemainderIs((i - j) - (a - b), p - q, 0, WORD);
    SameRemainder(a - b, i - j, WORD);
  }

  lemma CountDifference(a: nat, i: nat, b: nat, j: nat)
    requires CountsTo(a, i) && CountsTo(b, j) && j <= i < j + WORD
    ensures WrapSub(a, b) == i - j
  {
    WrapSubExact(i, j);
  }

  lemma DifferenceFits(a: nat, b: nat)
    requires b <= a < WORD
    ensures WrapSub(a, b) == a - b
  {}

  lemma SumFits(a: nat, b: nat)
    requires a + b < WORD
    ensures WrapAdd(a, b) == a + b
  {}

  /** Masking by capacity - 1 respects the 32-bit wrap: a power of two divides 2^32. */
  ghost predicate Masks(capacity: nat) {
    capacity > 0 && WORD % capacity == 0
  }

  /** Masking the wrapped index finds the slot of the true position. */
  lemma SlotOf(index: nat, count: nat, i: nat, capacity: nat)
    requires Masks(capacity) && CountsTo(index, count)
    ensures WrapAdd(index, i) % capacity == (count + i) % capacity
  {
    RemainderOfSum(count, i, WORD);
    RemainderOfRemainder(count + i, WORD, capacity);
  }
}
