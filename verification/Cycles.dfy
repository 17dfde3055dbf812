/** Timer cycles in 64-bit words and their conversion from and to durations. */
module Cycles {
  import opened Words

  /** Cycles of `count` units of 1/m second, on a timer of `hz` cycles a second. A negative count is converted first
      to a 64-bit unsigned word, as is the product. */
  function FromDuration(count: int, m: nat, hz: nat): nat
    requires m > 0
  {
    Wrap64(count * hz) / m
  }

  /** Units of 1/m second in `num` cycles. */
  function ToDuration(num: nat, m: nat, hz: nat): nat
    requires hz > 0
  {
    Wrap64(num * m) / hz
  }

  /** These are the whole cycles in a duration, of a product that is kept in 64 bits. */
  lemma CyclesOfDuration(count: nat, m: nat, hz: nat)
    requires m > 0
    ensures FromDuration(count, m, hz) * m <= Wrap64(count * hz) < FromDuration(count, m, hz) * m + m
    ensures count * hz < U64 ==> Wrap64(count * hz) == count * hz
  {
    var p := count * hz;
    if p < U64 { SmallWord(p); }
    var w := Wrap64(p);
    assert w == (w / m) * m + w % m;
  }

  /** These are the whole units that so many cycles take, likewise. */
  lemma DurationOfCycles(num: nat, m: nat, hz: nat)
    requires hz > 0
    ensures ToDuration(num, m, hz) * hz <= Wrap64(num * m) < ToDuration(num, m, hz) * hz + hz
    ensures num * m < U64 ==> Wrap64(num * m) == num * m
  {
    var p := num * m;
    if p < U64 { SmallWord(p); }
    var w := Wrap64(p);
    assert w == (w / hz) * hz + w % hz;
  }

  function Ceil(a: nat, b: nat): nat
    requires b > 0
  {
    (a + (b - 1)) / b
  }

  /** What a round trip loses, exactly: the rounded-up quotient of what the first conversion cut off. */
  lemma RoundTripLoss(count: nat, m: nat, hz: nat)
    requires m > 0 && hz > 0 && count * hz < U64
    ensures var lost := Ceil((count * hz) % m, hz);
      lost <= count && ToDuration(FromDuration(count, m, hz), m, hz) == count - lost
  {
    hide Wrap64, Ceil;
    var p := count * hz;
    var q, r := p / m, p % m;
    assert p == q * m + r;
    assert q * m >= 0 by { MulMono(0, q, m); }
    SmallWord(p);
    SmallWord(q * m);
    CeilBounds(r, hz);
    LossQuotient(count, hz, q * m, r, Ceil(r, hz));
  }

  /** What is left lies between count - lost multiples of hz and the next one. */
  lemma LossQuotient(count: nat, hz: nat, left: nat, r: nat, lost: nat)
    requires hz > 0 && left + r == count * hz && r <= lost * hz < r + hz
    ensures lost <= count && left / hz == count - lost
  {
    MulAdd(count - lost, lost, hz);
    if lost > count {
      MulMono(count + 1, lost, hz);
      MulAdd(count, 1, hz);
    }
    RemainderUnique(left, hz, count - lost, lost * hz - r);
  }

  lemma CeilBounds(a: nat, b: nat)
    requires b > 0
    ensures Ceil(a, b) * b >= a && Ceil(a, b) * b < a + b
  {
    var x := a + (b - 1);
    assert x == (x / b) * b + x % b;
  }

  lemma CeilMono(a: nat, a': nat, b: nat)
    requires a <= a' && b > 0
    ensures Ceil(a, b) <= Ceil(a', b)
  {
    CeilBounds(a, b);
    CeilBounds(a', b);
    assert (Ceil(a', b) + 1) * b == Ceil(a', b) * b + b;
    MulCancel(Ceil(a, b), Ceil(a', b) + 1, b);
  }

  /** A round trip never adds, loses at most ceil((m - 1) / hz) units, at most one on a timer at least as fine
      as the unit, and nothing exactly when the conversion to cycles cuts nothing off. */
  lemma RoundTripBounds(count: nat, m: nat, hz: nat)
    requires m > 0 && hz > 0 && count * hz < U64
    ensures var back := ToDuration(FromDuration(count, m, hz), m, hz);
      && back <= count && count - back <= Ceil(m - 1, hz)
      && (hz >= m ==> count - back <= 1)
      && (back == count <==> (count * hz) % m == 0)
      && (hz % m == 0 ==> back == count)
  {
    RoundTripLoss(count, m, hz);
    LossBounds((count * hz) % m, m, hz);
    if hz % m == 0 { MultipleOfMultiple(count, hz, m); }
  }

  lemma LossBounds(r: nat, m: nat, hz: nat)
    requires r < m && hz > 0
    ensures Ceil(r, hz) <= Ceil(m - 1, hz)
    ensures hz >= m ==> Ceil(r, hz) <= 1
    ensures Ceil(r, hz) == 0 <==> r == 0
  {
    CeilMono(r, m - 1, hz);
    CeilBounds(r, hz);
    if hz >= m { MulCancel(Ceil(r, hz), 2, hz); }
    if r == 0 { MulCancel(Ceil(r, hz), 1, hz); }
  }

  lemma MultipleOfMultiple(count: nat, hz: nat, m: nat)
    requires m > 0 && hz % m == 0
    ensures (count * hz) % m == 0
  {
    var d := hz / m;
    assert hz == d * m;
    assert count * (d * m) == (count * d) * m;
    RemainderUnique(count * hz, m, count * d, 0);
  }

  /** Longer durations have at least as many cycles, and a sum has the cycles of its parts or one more. */
  lemma FromDurationAdds(a: nat, b: nat, m: nat, hz: nat)
    requires m > 0 && (a + b) * hz < U64
    ensures var x, y, z := FromDuration(a, m, hz), FromDuration(b, m, hz), FromDuration(a + b, m, hz);
      x <= z && x + y <= z <= x + y + 1
  {
    MulAdd(a, b, hz);
    MulMono(0, a, hz);
    MulMono(0, b, hz);
    SumOfQuotients(a * hz, b * hz, (a + b) * hz, m);
  }

  lemma SumOfQuotients(p: int, q: int, s: int, m: nat)
    requires m > 0 && 0 <= p && 0 <= q && s == p + q < U64
    ensures var x, y, z := Wrap64(p) / m, Wrap64(q) / m, Wrap64(s) / m;
      x <= z && x + y <= z <= x + y + 1
  {
    NoWrap(p);
    NoWrap(q);
    NoWrap(s);
    QuotientAdds(p, q, m);
  }

  lemma NoWrap(p: int)
    requires 0 <= p < U64
    ensures Wrap64(p) == p
  {
  }

  lemma QuotientAdds(p: nat, q: nat, m: nat)
    requires m > 0
    ensures p / m + q / m <= (p + q) / m <= p / m + q / m + 1
    ensures p / m <= (p + q) / m
  {
    var s := p % m + q % m;
    assert p + q == (p / m + q / m) * m + s;
    if s < m {
      RemainderUnique(p + q, m, p / m + q / m, s);
    } else {
      assert (p / m + q / m + 1) * m == (p / m + q / m) * m + m;
      RemainderUnique(p + q, m, p / m + q / m + 1, s - m);
    }
  }

  //// The spread of flow starts over a second.

  const MICROS := 1_000_000

  function FlowStep(n: nat, hz: nat): nat
    requires n > 0
  {
    FromDuration(MICROS / n, MICROS, hz)
  }

  /** All n starts fall inside one second, which they fill but for less than (1 + hz / 10^6) cycles a flow. */
  lemma StartsFillTheSecond(n: nat, hz: nat)
    requires n > 0 && (1_000_000 / n) * hz < U64
    ensures var step := FlowStep(n, hz);
      && step == (1_000_000 / n) * hz / 1_000_000 && n * step <= hz
      && 1_000_000 * (hz - n * step) < n * (hz + 1_000_000)
      && (step == 0 <==> (1_000_000 / n) * hz < 1_000_000)
  {
    var us := MICROS / n;
    var step, r := (us * hz) / MICROS, (us * hz) % MICROS;
    MulMono(0, us, hz);
    MicrosPerFlow(n);
    // n * us * hz, split once at the flow's share of the second and once at the step
    MulAssoc(n, us, hz);
    MulAdd(step * MICROS, r, n);
    MulAssoc(n, step, MICROS);
    assert us * hz == step * MICROS + r;
    assert (n * us) * hz == MICROS * (n * step) + n * r;
    MulMono(n * us, MICROS, hz);
    MulMono(MICROS - n, n * us, hz);
    MulAdd(MICROS - n, n, hz);
    MulMono(r, MICROS - 1, n);
    MulMono(0, r, n);
    MulAdd(hz, MICROS, n);
    assert n * r <= n * MICROS - n;
  }

  lemma MicrosPerFlow(n: nat)
    requires n > 0
    ensures MICROS - n < n * (MICROS / n) <= MICROS
  {
    assert MICROS == n * (MICROS / n) + MICROS % n;
  }
}
