/** The update manager's cooldown: a wrapping 64-bit shift that still doubles up to a day. */
module Backoff {
  const BASE := 300_000_000_000
  const MAX := 86_400_000_000_000
  const SECOND := 1_000_000_000
  const WORD := 0x1_0000_0000_0000_0000

  function Pow2(n: nat): (p: nat)
    ensures p > 0
  {
    if n == 0 then 1 else 2 * Pow2(n - 1)
  }

  /** A value kept in a signed 64-bit word. */
  function Wrap64(x: int): (w: int)
    ensures -WORD / 2 <= w < WORD / 2
  {
    var r := x % WORD;
    if r < WORD / 2 then r else r - WORD
  }

  /** A Go int64 shift: doubling and wrapping, once per position. */
  function Shl64(x: int, n: nat): int { if n == 0 then x else Wrap64(2 * Shl64(x, n - 1)) }

  function Min(a: int, b: int): int { if a <= b then a else b }

  /** cooling, as the code computes the window: in nanoseconds, clamped and guarded against a wrapped shift. */
  method Window(failCount: int) returns (backoff: int)
    requires failCount >= 1
    ensures backoff == Min(BASE * Pow2(failCount - 1), MAX)
  {
    backoff := MAX;
    var shift := failCount - 1;
    if shift < 63 {
      var b := Shl64(BASE, shift);
      if b > 0 && b < backoff {
        backoff := b;
      }
      ShiftIsHarmless(shift);
    } else {
      Pow2Grows(9, shift);
      NineDoublingsPassADay();
    }
  }

  /** Whether the manager keeps silent, with the clock in Unix seconds. */
  method Cooling(failCount: int, now: int, lastCheck: int) returns (yes: bool)
    ensures yes <==> failCount > 0 && now - lastCheck < Min(300 * Pow2(failCount - 1), 86_400)
  {
    if failCount <= 0 {
      return false;
    }
    var backoff := Window(failCount);
    WholeSeconds(failCount - 1);
    return now - lastCheck < backoff / SECOND;
  }

  lemma WholeSeconds(n: nat)
    ensures Min(BASE * Pow2(n), MAX) / SECOND == Min(300 * Pow2(n), 86_400)
  {
    var p := Pow2(n);
    assert BASE * p == SECOND * (300 * p);
    assert (SECOND * (300 * p)) / SECOND == 300 * p;
  }

  lemma {:induction false} Pow2Grows(m: nat, n: nat)
    requires m <= n
    ensures Pow2(m) <= Pow2(n)
    decreases n
  {
    if m < n {
      Pow2Grows(m, n - 1);
    }
  }

  lemma NineDoublingsPassADay()
    ensures BASE * Pow2(9) > MAX && BASE * Pow2(8) < MAX
  {
    assert Pow2(4) == 16;
    assert Pow2(8) == 256;
  }

  /** Until the word is full the shift is exact. */
  lemma {:induction false} ShiftIsExact(n: nat)
    requires n <= 24
    ensures Shl64(BASE, n) == BASE * Pow2(n)
  {
    if n > 0 {
      ShiftIsExact(n - 1);
      SmallPow2(n);
      DoubleFits(BASE * Pow2(n - 1));
    }
  }

  lemma DoubleFits(x: int)
    requires 0 <= x && 2 * x <= BASE * 0x100_0000
    ensures Wrap64(2 * x) == 2 * x
  {
  }

  lemma SixMore(n: nat, x: int)
    requires Pow2(n) == x
    ensures Pow2(n + 6) == 64 * x
  {
    assert Pow2(n + 2) == 4 * x;
    assert Pow2(n + 4) == 16 * x;
  }

  lemma Pow2Of24()
    ensures Pow2(24) == 0x100_0000
  {
    SixMore(0, 1);
    SixMore(6, 64);
    SixMore(12, 4096);
    SixMore(18, 262144);
  }

  lemma SmallPow2(n: nat)
    requires n <= 24
    ensures Pow2(n) <= 0x100_0000
  {
    Pow2Grows(n, 24);
    Pow2Of24();
  }

  lemma OneShift(n: nat, x: int, y: int)
    requires Shl64(BASE, n) == x && y == Wrap64(2 * x)
    ensures Shl64(BASE, n + 1) == y
  {
  }

  lemma LastExactShift()
    ensures Shl64(BASE, 24) == 5033164800000000000
  {
    ShiftIsExact(24);
    Pow2Of24();
    hide Shl64, Pow2;
  }

  predicate IsHarmless(b: int) { b <= 0 || b >= MAX }

  /** The shifts that wrap while low bits are still set, one by one. */
  lemma MiddleShiftsAreHarmless(n: nat)
    requires 25 <= n <= 35
    ensures IsHarmless(Shl64(BASE, n))
    ensures Shl64(BASE, 36) == -7616853607278706688
  {
    LastExactShift();
    hide Shl64;
    OneShift(24, 5033164800000000000, -8380414473709551616);
    OneShift(25, -8380414473709551616, 1685915126290448384);
    OneShift(26, 1685915126290448384, 3371830252580896768);
    OneShift(27, 3371830252580896768, 6743660505161793536);
    OneShift(28, 6743660505161793536, -4959423063385964544);
    OneShift(29, -4959423063385964544, 8527897946937622528);
    OneShift(30, 8527897946937622528, -1390948179834306560);
    OneShift(31, -1390948179834306560, -2781896359668613120);
    OneShift(32, -2781896359668613120, -5563792719337226240);
    OneShift(33, -5563792719337226240, 7319158635035099136);
    OneShift(34, 7319158635035099136, -3808426803639353344);
    OneShift(35, -3808426803639353344, -7616853607278706688);
  }

  const CHUNK := 0x8000_0000_0000

  lemma DoublingKeepsChunks(k: int) returns (k': int)
    ensures Wrap64(2 * (CHUNK * k)) == CHUNK * k'
  {
    var x := 2 * (CHUNK * k);
    var q := x / WORD;
    assert x == WORD * q + x % WORD;
    k' := 2 * k - 131072 * q - (if x % WORD < WORD / 2 then 0 else 131072);
  }

  /** From 36 on the shifted value is a multiple of 2^47, more than a day. */
  lemma {:induction false} LateShiftsAreChunks(n: nat) returns (k: int)
    requires n >= 36
    ensures Shl64(BASE, n) == CHUNK * k
  {
    if n == 36 {
      MiddleShiftsAreHarmless(25);
      k := -54121;
    } else {
      var j := LateShiftsAreChunks(n - 1);
      k := DoublingKeepsChunks(j);
    }
  }

  lemma ChunksAreHarmless(k: int)
    ensures IsHarmless(CHUNK * k)
  {
  }

  /** No wrapped shift lands strictly between 0 and a day; an exact one is the doubled base. */
  lemma ShiftIsHarmless(n: nat)
    ensures var b := Shl64(BASE, n); (if 0 < b < MAX then b else MAX) == Min(BASE * Pow2(n), MAX)
  {
    hide Shl64, Pow2;
    if n <= 24 {
      ShiftIsExact(n);
    } else {
      if n <= 35 {
        MiddleShiftsAreHarmless(n);
      } else {
        var k := LateShiftsAreChunks(n);
        ChunksAreHarmless(k);
      }
      Pow2Grows(9, n);
      NineDoublingsPassADay();
    }
  }

  /** More failures never shorten the window. */
  lemma WindowIsMonotone(m: nat, n: nat)
    requires m <= n
    ensures Min(BASE * Pow2(m), MAX) <= Min(BASE * Pow2(n), MAX)
  {
    Pow2Grows(m, n);
    hide Pow2;
  }
}
