/** Fixed-width unsigned arithmetic and the bit mask that turns a counter into a slot number. */
module Words {

  const U16: nat := 0x1_0000
  const U32: nat := 0x1_0000_0000
  const U64: nat := 0x1_0000_0000_0000_0000

  /** Conversion of any integer to a 64-bit unsigned word. */
  function Wrap64(n: int): nat {
    n % U64
  }

  function Min(a: int, b: int): int {
    if a < b then a else b
  }

  function Pow2(k: nat): (r: nat)
    ensures r > 0
  {
    if k == 0 then 1 else 2 * Pow2(k - 1)
  }

  /** The `&` operator on unsigned numbers, bit by bit. */
  function BitAnd(a: nat, b: nat): nat {
    if a == 0 || b == 0 then 0
    else 2 * BitAnd(a / 2, b / 2) + (a % 2) * (b % 2)
  }

  /** The condition of the static assertion on the ring's size. */
  predicate ValidSize(size: nat) {
    0 < size < U64 && BitAnd(size, size - 1) == 0
  }

  /** The ring's `counter & size_mask`. */
  function Slot(size: nat, counter: nat): (r: nat)
    requires ValidSize(size)
    ensures r < size
  {
    MaskBelowSize(size, counter);
    BitAnd(counter, size - 1)
  }

  lemma {:induction false} MaskOfPowerOfTwo(c: nat, k: nat)
    ensures BitAnd(c, Pow2(k) - 1) == c % Pow2(k)
    decreases k
  {
    if k > 0 {
      var h := Pow2(k - 1);
      assert Pow2(k) == 2 * h;
      hide BitAnd, Pow2;
      MaskOfPowerOfTwo(c / 2, k - 1);
      HalfRemainder(c, h);
      OddMask(c, h);
    }
  }

  /** The last bit of a mask keeps the last bit. */
  lemma OddMask(c: nat, h: nat)
    requires h > 0
    ensures BitAnd(c, 2 * h - 1) == 2 * BitAnd(c / 2, h - 1) + c % 2
  {
    var b := 2 * h - 1;
    assert b / 2 == h - 1 && b % 2 == 1;
    assert (c % 2) * 1 == c % 2;
  }

  lemma HalfRemainder(c: nat, h: nat)
    requires h > 0
    ensures c % (2 * h) == 2 * ((c / 2) % h) + c % 2
  {
    var q, r := (c / 2) / h, (c / 2) % h;
    assert c == 2 * (q * h + r) + c % 2;
    assert q * (2 * h) == 2 * (q * h);
    RemainderUnique(c, 2 * h, q, 2 * r + c % 2);
  }

  lemma RemainderUnique(a: int, m: int, q: int, r: int)
    requires 0 <= r < m
    requires a == q * m + r
    ensures a % m == r && a / m == q
  {
    var q', r' := a / m, a % m;
    assert a == q' * m + r';
    if q < q' {
      assert (q' - q) * m >= m by { MulMono(1, q' - q, m); }
    } else if q > q' {
      assert (q - q') * m >= m by { MulMono(1, q - q', m); }
    }
  }

  lemma MulMono(a: int, b: int, m: int)
    requires a <= b && m >= 0
    ensures a * m <= b * m
  {
  }

  lemma MulCancel(a: int, b: int, m: int)
    requires m > 0 && a * m < b * m
    ensures a < b
  {
    if a >= b { MulMono(b, a, m); }
  }

  lemma MulAdd(a: int, b: int, m: int)
    ensures (a + b) * m == a * m + b * m
    ensures m * (a + b) == m * a + m * b
  {
  }

  lemma MulAssoc(a: int, b: int, c: int)
    ensures a * (b * c) == (a * b) * c
  {
  }

  /** The static assertion accepts exactly the powers of two. */
  lemma {:induction false} SizeTestAcceptsPowersOfTwo(size: nat)
    requires size > 0
    ensures BitAnd(size, size - 1) == 0 <==> exists k :: size == Pow2(k)
  {
    if BitAnd(size, size - 1) == 0 {
      var k := PowerOf(size);
      assert size == Pow2(k);
    } else {
      forall k ensures size != Pow2(k) {
        MaskOfPowerOfTwo(size, k);
      }
    }
  }

  lemma {:induction false} PowerOf(size: nat) returns (k: nat)
    requires size > 0 && BitAnd(size, size - 1) == 0
    ensures size == Pow2(k)
  {
    if size == 1 {
      k := 0;
    } else {
      assert BitAnd(size, size - 1) == 2 * BitAnd(size / 2, (size - 1) / 2) + (size % 2) * ((size - 1) % 2);
      if size % 2 == 1 {
        SelfMask(size / 2);
      }
      k := PowerOf(size / 2);
      k := k + 1;
    }
  }

  lemma {:induction false} SelfMask(a: nat)
    ensures BitAnd(a, a) == a
  {
    if a > 0 {
      SelfMask(a / 2);
      assert (a % 2) * (a % 2) == a % 2 by {
        if a % 2 != 0 { assert a % 2 == 1; }
      }
    }
  }

  lemma MaskBelowSize(size: nat, counter: nat)
    requires ValidSize(size)
    ensures BitAnd(counter, size - 1) < size
  {
    var k := PowerOf(size);
    MaskOfPowerOfTwo(counter, k);
  }

  lemma MaskIsRemainder(size: nat, counter: nat)
    requires ValidSize(size)
    ensures BitAnd(counter, size - 1) == counter % size
    ensures Slot(size, counter) == counter % size
  {
    var k := PowerOf(size);
    MaskOfPowerOfTwo(counter, k);
  }

  lemma {:induction false} PowersDivide(j: nat, k: nat)
    requires j <= k
    ensures Pow2(k) == Pow2(k - j) * Pow2(j)
    decreases j
  {
    if j > 0 {
      PowersDivide(j - 1, k - 1);
      var a, b := Pow2(k - j), Pow2(j - 1);
      MulAssoc(a, 2, b);
      MulAssoc(2, a, b);
    }
  }

  lemma {:induction false} PowersGrow(j: nat, k: nat)
    requires Pow2(j) < Pow2(k)
    ensures j < k
  {
    if j >= k {
      PowersDivide(k, j);
      MulMono(1, Pow2(j - k), Pow2(k));
    }
  }

  lemma WordIsPower()
    ensures U64 == Pow2(64)
  {
    assert Pow2(16) == 0x1_0000 by {
      assert Pow2(8) == 256 by { assert Pow2(4) == 16; }
      PowersDivide(8, 16);
    }
    PowersDivide(16, 32);
    PowersDivide(32, 64);
  }

  /** A counter that wrapped any number of times still names the slot of the unbounded one. */
  lemma SlotSurvivesWrap(size: nat, counter: nat)
    requires ValidSize(size)
    ensures Slot(size, Wrap64(counter)) == Slot(size, counter)
  {
    RemainderSurvivesWrap(size, counter);
    MaskIsRemainder(size, counter);
    MaskIsRemainder(size, Wrap64(counter));
  }

  lemma RemainderSurvivesWrap(size: nat, counter: nat)
    requires ValidSize(size)
    ensures Wrap64(counter) % size == counter % size
  {
    var m := SizeDividesWord(size);
    var d, w := counter / U64, Wrap64(counter);
    var q := w / size;
    assert counter == d * U64 + w && w == q * size + w % size;
    assert d * (m * size) == (d * m) * size && (d * m + q) * size == (d * m) * size + q * size;
    RemainderUnique(counter, size, d * m + q, w % size);
  }

  lemma SizeDividesWord(size: nat) returns (m: nat)
    requires ValidSize(size)
    ensures U64 == m * size
  {
    WordIsPower();
    var k := PowerOf(size);
    PowersGrow(k, 64);
    PowersDivide(k, 64);
    m := Pow2(64 - k);
  }

  /** Wrapped differences are the true ones while these fit a word. */
  lemma WrappedDifference(a: int, b: int)
    requires 0 <= a - b < U64
    ensures Wrap64(Wrap64(a) - Wrap64(b)) == a - b
  {
  }

  lemma SmallWord(x: int)
    requires 0 <= x < U64
    ensures Wrap64(x) == x
  {
  }

  lemma WrappedSum(a: int, b: int)
    ensures Wrap64(Wrap64(a) + b) == Wrap64(a + b)
  {
  }

  /** Counters less than a ring apart have different slots. */
  lemma DistinctSlots(size: int, a: int, b: int)
    requires 0 <= a && 0 <= b && a != b && 0 < size && -size < a - b < size
    ensures a % size != b % size
  {
    if a % size == b % size {
      var d := a / size - b / size;
      assert a - b == d * size;
      if d >= 1 { MulMono(1, d, size); } else if d <= -1 { MulMono(d, -1, size); }
    }
  }

  /** Where a run of `avail` elements from `tail` ends: no wrap, or wrap with the end of the buffer inside it. */
  lemma OfferedRange(size: int, tail: int, avail: int)
    requires 0 < size && 0 <= tail && 0 < avail <= size
    ensures (tail + avail) % size > tail % size ==> tail % size + avail == (tail + avail) % size
    ensures (tail + avail) % size <= tail % size ==>
              size - tail % size <= avail && (tail + avail) % size == avail - (size - tail % size)
  {
    var q, b := tail / size, tail % size;
    assert tail == q * size + b;
    if b + avail < size {
      RemainderUnique(tail + avail, size, q, b + avail);
    } else if b + avail < 2 * size {
      assert (q + 1) * size == q * size + size;
      RemainderUnique(tail + avail, size, q + 1, b + avail - size);
    }
  }

  lemma SlotInRange(size: int, c: int, i: int)
    requires 0 < size && 0 <= c && 0 <= i && c % size + i < size
    ensures (c + i) % size == c % size + i
  {
    assert c == (c / size) * size + c % size;
    RemainderUnique(c + i, size, c / size, c % size + i);
  }

  lemma WrapsToStart(size: int, tail: int, k: int)
    requires 0 < size && 0 <= tail && tail % size + k == size
    ensures (tail + k) % size == 0
  {
    assert tail == (tail / size) * size + tail % size;
    assert (tail / size + 1) * size == tail + k;
    RemainderUnique(tail + k, size, tail / size + 1, 0);
  }
}
