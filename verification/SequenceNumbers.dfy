/** Numbers of reliable commands. The code keeps 16 bits of them and tells old from new by windows of
    4096 numbers; the commands themselves are counted without bound. */
module SequenceNumbers {
  import opened Words

  const WINDOW_SIZE := 0x1000
  const WINDOWS := 16
  const FREE_WINDOWS := 8

  /** What the code keeps of a number. */
  function Low(i: nat): (n: uint16) {
    i % WORD16
  }

  function Window(i: nat): nat {
    i / WINDOW_SIZE
  }

  /** How many windows n is ahead of current, as the code computes it: a smaller number is taken to
      have wrapped around. */
  function WindowsAhead(n: uint16, current: uint16): (d: nat)
    ensures d <= WINDOWS
  {
    (if n < current then n / WINDOW_SIZE + WINDOWS else n / WINDOW_SIZE) - current / WINDOW_SIZE
  }

  /** A command this far ahead may be stored. */
  predicate Acceptable(n: uint16, current: uint16) {
    WindowsAhead(n, current) < FREE_WINDOWS - 1
  }

  /** A command this far ahead is not acknowledged. */
  predicate AckRefused(n: uint16, current: uint16) {
    FREE_WINDOWS - 1 <= WindowsAhead(n, current) <= FREE_WINDOWS
  }

  /** How far n is ahead of current, modulo 2^16. */
  function Distance(current: uint16, n: uint16): (d: uint16) {
    if n < current then n + WORD16 - current else n - current
  }

  lemma LowParts(i: nat)
    ensures Low(i) / WINDOW_SIZE == Window(i) % WINDOWS && Low(i) % WINDOW_SIZE == i % WINDOW_SIZE
    ensures i == i / WORD16 * WORD16 + Low(i)
    ensures Window(i) == i / WORD16 * WINDOWS + Low(i) / WINDOW_SIZE
  {
    var q, n := i / WORD16, Low(i);
    assert i == q * WORD16 + n;
    assert i == (q * WINDOWS + n / WINDOW_SIZE) * WINDOW_SIZE + n % WINDOW_SIZE;
  }

  /** Less than 2^16 ahead, the distance of the 16-bit numbers is the true one. */
  lemma DistanceMeaning(i: nat, r: nat)
    requires r <= i < r + WORD16
    ensures Distance(Low(r), Low(i)) == i - r
  {
    LowParts(i);
    LowParts(r);
  }

  lemma LowInjective(i: nat, j: nat)
    requires Low(i) == Low(j) && i < j + WORD16 && j < i + WORD16
    ensures i == j
  {
    LowParts(i);
    LowParts(j);
  }

  lemma LowAdd(i: nat, j: nat)
    ensures Low(i + j) == (Low(i) + j) % WORD16
  {
    LowParts(i);
    var q := i / WORD16;
    assert i + j == Low(i) + j + q * WORD16;
    ModAdd(Low(i) + j, q);
  }

  lemma {:induction false} ModAdd(a: nat, q: nat)
    ensures (a + q * WORD16) % WORD16 == a % WORD16
  {
    if q > 0 { ModAdd(a, q - 1); }
  }

  lemma WindowMonotone(i: nat, j: nat)
    requires i <= j
    ensures Window(i) <= Window(j)
  {
  }

  /** Ahead by less than 16 windows, the code sees by how many. */
  lemma AheadMeaning(i: nat, r: nat)
    requires r <= i && Window(i) < Window(r) + WINDOWS
    ensures WindowsAhead(Low(i), Low(r)) == Window(i) - Window(r)
  {
    LowParts(i);
    LowParts(r);
    WindowMonotone(r, i);
  }

  /** Behind by less than 16 windows, a number seems to be ahead by what is missing to 16. */
  lemma BehindMeaning(i: nat, r: nat)
    requires i < r && Window(r) < Window(i) + WINDOWS
    ensures WindowsAhead(Low(i), Low(r)) == WINDOWS - (Window(r) - Window(i))
  {
    LowParts(i);
    LowParts(r);
    WindowMonotone(i, r);
  }

  /** Exactly when an old number is taken for a new one: behind by less than 16 windows, if it is behind
      by 10 or more; further behind, if its windows and position say the same modulo 2^16. */
  lemma StaleAccepted(i: nat, r: nat)
    requires i < r
    ensures Window(r) < Window(i) + WINDOWS ==> (Acceptable(Low(i), Low(r)) <==> Window(r) >= Window(i) + 10)
    ensures var d := (Window(r) - Window(i)) % WINDOWS;
            Acceptable(Low(i), Low(r)) <==> d >= 10 || (d == 0 && Low(i) >= Low(r))
  {
    WindowMonotone(i, r);
    if Window(r) < Window(i) + WINDOWS { BehindMeaning(i, r); }
    LowParts(i);
    LowParts(r);
    WindowDifference(Window(i), Window(r));
  }

  /** Not acknowledged are exactly commands 7 or 8 windows ahead, and of the older ones those 8 or 9
      windows behind, within 16 windows. */
  lemma RefusedMeaning(i: nat, r: nat)
    ensures r <= i && i / 4096 < r / 4096 + 16 ==> (AckRefused(Low(i), Low(r)) <==> 7 <= i / 4096 - r / 4096 <= 8)
    ensures i < r && r / 4096 < i / 4096 + 16 ==> (AckRefused(Low(i), Low(r)) <==> 8 <= r / 4096 - i / 4096 <= 9)
  {
    hide Low, WindowsAhead;
    if r <= i && i / 4096 < r / 4096 + 16 { AheadMeaning(i, r); }
    if i < r && r / 4096 < i / 4096 + 16 { BehindMeaning(i, r); }
  }

  lemma WindowDifference(v: nat, w: nat)
    ensures (w - v) % WINDOWS == (w % WINDOWS - v % WINDOWS) % WINDOWS
  {
  }
}
