/** Printing numbers into a buffer of the caller, where no library function may be called. */
module Numerals {
  import opened Words

  const DIGITS := "0123456789ABCDEF"

  predicate IsDigit(c: char, base: nat) {
    exists d :: 0 <= d < base && d < |DIGITS| && DIGITS[d] == c
  }

  function DigitValue(c: char): nat {
    if '0' <= c <= '9' then (c - '0') as nat else if 'A' <= c <= 'F' then 10 + (c - 'A') as nat else 0
  }

  /** The number that a numeral stands for. */
  function Value(s: string, base: nat): nat {
    if s == "" then 0 else Value(s[..|s| - 1], base) * base + DigitValue(s[|s| - 1])
  }

  predicate AllDigits(s: string, base: nat) {
    forall i :: 0 <= i < |s| ==> IsDigit(s[i], base)
  }

  /** At least one decimal digit, and no zero in front of another digit. */
  predicate Canonical(s: string) {
    s != "" && AllDigits(s, 10) && (|s| > 1 ==> s[0] != '0')
  }

  function Power(base: nat, k: nat): nat {
    if k == 0 then 1 else base * Power(base, k - 1)
  }

  //// What is printed.

  function Dec(n: nat): (s: string)
    ensures s != ""
  {
    (if n < 10 then "" else Dec(n / 10)) + [DIGITS[n % 10]]
  }

  function Hex(n: nat, k: nat): (s: string)
    ensures |s| == k
  {
    if k == 0 then "" else Hex(n / 16, k - 1) + [DIGITS[n % 16]]
  }

  lemma DigitsHaveTheirValues(d: nat)
    requires d < 16
    ensures DigitValue(DIGITS[d]) == d
  {
  }

  /** The numerals as one writes them: the digit of the lowest place is the last. */
  lemma AsWritten(n: nat, k: nat)
    ensures Dec(n) == (if n < 10 then "" else Dec(n / 10)) + ['0' + (n % 10) as char]
    ensures Hex(n, k + 1) ==
            Hex(n / 16, k) + [if n % 16 < 10 then '0' + (n % 16) as char else 'A' + (n % 16 - 10) as char]
  {
    DigitIs(n % 10);
    DigitIs(n % 16);
    hide DIGITS;
  }

  lemma DigitIs(d: nat)
    requires d < 16
    ensures DIGITS[d] == if d < 10 then '0' + d as char else 'A' + (d - 10) as char
  {
  }

  lemma DigitsAreDifferent(c: char, base: nat)
    requires base <= 16 && IsDigit(c, base)
    ensures DigitValue(c) < base && DIGITS[DigitValue(c)] == c
  {
    var d :| 0 <= d < base && d < |DIGITS| && DIGITS[d] == c;
    DigitsHaveTheirValues(d);
  }

  lemma ValueOfLonger(s: string, c: char, base: nat)
    ensures Value(s + [c], base) == Value(s, base) * base + DigitValue(c)
  {
    assert (s + [c])[..|s|] == s;
  }

  /** The decimal numeral is canonical, reads back, and has no more digits than the number allows. */
  lemma {:induction false} DecReadsBack(n: nat)
    ensures Canonical(Dec(n)) && Value(Dec(n), 10) == n && (n > 0 ==> Dec(n)[0] != '0')
  {
    DigitsHaveTheirValues(n % 10);
    var front: string := if n < 10 then "" else Dec(n / 10);
    ValueOfLonger(front, DIGITS[n % 10], 10);
    assert IsDigit(DIGITS[n % 10], 10);
    if n >= 10 {
      DecReadsBack(n / 10);
    }
  }

  lemma {:induction false} DecIsShort(n: nat, k: nat)
    requires n < Power(10, k) && k > 0
    ensures |Dec(n)| <= k
  {
    if n >= 10 {
      DecIsShort(n / 10, k - 1);
    }
  }

  /** There is only one canonical numeral of a number. */
  lemma {:induction false} DecIsUnique(s: string, n: nat)
    requires Canonical(s) && Value(s, 10) == n
    ensures s == Dec(n)
    decreases |s|
  {
    var front, c := s[..|s| - 1], s[|s| - 1];
    var q, d := Value(front, 10), DigitValue(c);
    DigitsAreDifferent(c, 10);
    RemainderUnique(n, 10, q, d);
    assert s == front + [c];
    if front != "" {
      assert front[0] == s[0];
      LeadingDigitCounts(front);
      DecIsUnique(front, q);
    }
  }

  lemma {:induction false} LeadingDigitCounts(s: string)
    requires AllDigits(s, 10) && s != "" && s[0] != '0'
    ensures Value(s, 10) > 0
  {
    DigitsAreDifferent(s[|s| - 1], 10);
    if |s| > 1 {
      LeadingDigitCounts(s[..|s| - 1]);
    }
  }

  /** The hexadecimal numeral of fixed width reads back, and is the only one of that width. */
  lemma {:induction false} HexReadsBack(n: nat, k: nat)
    requires n < Power(16, k)
    ensures AllDigits(Hex(n, k), 16) && Value(Hex(n, k), 16) == n
  {
    if k > 0 {
      DigitsHaveTheirValues(n % 16);
      HexReadsBack(n / 16, k - 1);
      ValueOfLonger(Hex(n / 16, k - 1), DIGITS[n % 16], 16);
      assert IsDigit(DIGITS[n % 16], 16);
    }
  }

  lemma {:induction false} HexIsUnique(s: string, n: nat)
    requires AllDigits(s, 16) && Value(s, 16) == n
    ensures s == Hex(n, |s|) && n < Power(16, |s|)
    decreases |s|
  {
    if s != "" {
      var front, c := s[..|s| - 1], s[|s| - 1];
      DigitsAreDifferent(c, 16);
      RemainderUnique(n, 16, Value(front, 16), DigitValue(c));
      HexIsUnique(front, Value(front, 16));
    }
  }

  lemma WordsFit()
    ensures U32 <= Power(10, 10) && U64 == Power(16, 16)
  {
    assert Power(10, 5) == 100_000;
    assert Power(10, 10) == 100_000 * Power(10, 5);
    assert Power(16, 4) == 65536;
    assert Power(16, 8) == 65536 * Power(16, 4);
    assert Power(16, 12) == 65536 * Power(16, 8);
    assert Power(16, 16) == 65536 * Power(16, 12);
  }

  //// The printers.

  const MAX_LEN := 10

  /** Digits from the right, then a move to the front; everything happens in the first eleven characters. */
  method U32ToDec(val: nat, buf: array<char>)
    requires val < U32 && buf.Length >= MAX_LEN + 1
    modifies buf
    ensures |Dec(val)| <= MAX_LEN && buf[..|Dec(val)|] == Dec(val) && buf[|Dec(val)|] == '\0'
    ensures forall j :: MAX_LEN < j < buf.Length ==> buf[j] == old(buf[j])
  {
    WordsFit();
    DecIsShort(val, MAX_LEN);
    var i, v := MAX_LEN, val;
    while true
      invariant 0 < i <= MAX_LEN && |Dec(v)| <= i
      invariant Dec(val) == Dec(v) + buf[i..MAX_LEN]
      invariant forall j :: MAX_LEN < j < buf.Length ==> buf[j] == old(buf[j])
      decreases v
    {
      ghost var done := buf[i..MAX_LEN];
      i := i - 1;
      buf[i] := DIGITS[v % 10];
      assert buf[i..MAX_LEN] == [DIGITS[v % 10]] + done;
      v := v / 10;
      if v == 0 {
        break;
      }
    }
    MoveToFront(buf, i, MAX_LEN - i);
    buf[MAX_LEN - i] := '\0';
  }

  /** The move of n characters from place i to the front. */
  method MoveToFront(buf: array<char>, i: nat, n: nat)
    requires i + n <= buf.Length
    modifies buf
    ensures buf[..n] == old(buf[i..i + n])
    ensures forall j :: n <= j < buf.Length ==> buf[j] == old(buf[j])
  {
    for k := 0 to n
      invariant forall j :: 0 <= j < k ==> buf[j] == old(buf[i + j])
      invariant forall j :: k <= j < buf.Length ==> buf[j] == old(buf[j])
    {
      buf[k] := buf[i + k];
    }
  }

  method U64ToHex(val: nat, buf: array<char>)
    requires val < U64 && buf.Length >= 19
    modifies buf
    ensures buf[..18] == "0x" + Hex(val, 16) && buf[18] == '\0'
    ensures forall j :: 19 <= j < buf.Length ==> buf[j] == old(buf[j])
  {
    buf[18] := '\0';
    var i, v := 17, val;
    while i > 1
      invariant 1 <= i <= 17 && Hex(val, 16) == Hex(v, i - 1) + buf[i + 1..18]
      invariant buf[18] == '\0'
      invariant forall j :: 19 <= j < buf.Length ==> buf[j] == old(buf[j])
    {
      ghost var done := buf[i + 1..18];
      buf[i] := DIGITS[v % 16];
      assert buf[i..18] == [DIGITS[v % 16]] + done;
      i, v := i - 1, v / 16;
    }
    buf[1] := 'x';
    buf[0] := '0';
  }
}
