/** The encoding and decoding loops of compress.c, in 32-bit arithmetic. */
module RangeSteps {
  import opened Words
  import opened Interval

  /** The exclusive or of two words, as numbers, bit by bit. */
  function Xor(x: nat, y: nat): nat {
    if x == 0 && y == 0 then 0 else 2 * Xor(x / 2, y / 2) + if x % 2 != y % 2 then 1 else 0
  }

  lemma {:induction false} XorZero(x: nat, y: nat)
    ensures Xor(x, y) == 0 <==> x == y
  {
    if x != 0 || y != 0 { XorZero(x / 2, y / 2); }
  }

  function Power2(n: nat): (p: nat)
    ensures p > 0
  {
    if n == 0 then 1 else 2 * Power2(n - 1)
  }

  lemma {:induction false} XorBelow(x: nat, y: nat, n: nat)
    ensures Xor(x, y) < Power2(n) <==> x / Power2(n) == y / Power2(n)
    decreases n
  {
    if n == 0 {
      XorZero(x, y);
    } else {
      XorBelow(x / 2, y / 2, n - 1);
      HalfFirst(x, Power2(n - 1));
      HalfFirst(y, Power2(n - 1));
      if x == 0 && y == 0 { assert Xor(x, y) == 0; }
    }
  }

  lemma HalfFirst(x: nat, p: nat)
    requires p > 0
    ensures x / 2 / p == x / (2 * p)
  {
    var q := x / 2 / p;
    QuotientTimes(x / 2, p);
    Doubled(q, p);
    Doubled(q + 1, p);
    QuotientBetween(x, 2 * p, q, q + 1);
  }

  lemma QuotientTimes(y: nat, p: nat)
    requires p > 0
    ensures y / p * p <= y < (y / p + 1) * p
  {
    assert y == y / p * p + y % p;
  }

  lemma Doubled(q: nat, p: nat)
    ensures q * (2 * p) == 2 * (q * p)
  {
  }

  /** The source compares top bytes by exclusive or. */
  lemma TopBytesByXor(x: nat, y: nat)
    ensures Xor(x, y) >= TOP <==> x / TOP != y / TOP
  {
    hide Xor, Power2;
    XorBelow(x, y, 24);
    TopPower();
  }

  lemma TopPower()
    ensures Power2(24) == TOP
  {
    assert Power2(8) == 0x100;
    assert Power2(16) == 0x1_0000;
  }

  /** Whether low and low + range, as 32-bit words, differ in their top bytes. */
  function WordTopsDiffer(low: uint32, range: uint32): (differ: bool)
    requires Sound(Range(low, range))
    ensures differ <==> TopsDiffer(Range(low, range))
  {
    TopBytesByXor(low, (low + range) % WORD);
    WrappedTop(low, range);
    Xor(low, (low + range) % WORD) >= TOP
  }

  lemma WrappedTop(low: uint32, range: uint32)
    requires Sound(Range(low, range))
    ensures low / TOP != (low + range) % WORD / TOP <==> TopsDiffer(Range(low, range))
  {
  }

  lemma NormalizeStep(r: Range)
    requires Sound(r)
    ensures TopsDiffer(r) && r.range >= BOTTOM ==> Normalize(r) == ([], r)
    ensures !(TopsDiffer(r) && r.range >= BOTTOM) ==>
              && Sound(Shift(Settle(r)))
              && Normalize(r).0 == [r.low / TOP] + Normalize(Shift(Settle(r))).0
              && Normalize(r).1 == Normalize(Shift(Settle(r))).1
  {
    if !(TopsDiffer(r) && r.range >= BOTTOM) {
      SettleShift(r);
    }
  }

  /** Narrows the interval and writes the bytes that are settled, unless the output is full. */
  method EncodeRange(low: uint32, range: uint32, op: Op, out: array<byte>, pos: nat, limit: nat)
    returns (ok: bool, newLow: uint32, newRange: uint32, newPos: nat)
    requires Ready(Range(low, range)) && Fits(op)
    requires pos <= limit <= out.Length
    modifies out
    ensures pos <= newPos <= limit
    ensures var narrowed := Narrow(Range(low, range), op);
            && Sound(narrowed)
            && (!ok ==> pos + |Normalize(narrowed).0| > limit)
            && (ok ==> out[..newPos] == old(out[..pos]) + Normalize(narrowed).0)
            && (ok ==> Range(newLow, newRange) == Normalize(narrowed).1)
  {
    hide Normalize;
    NarrowSound(Range(low, range), op);
    ghost var narrowed := Narrow(Range(low, range), op);
    ok, newPos := true, pos;
    var unit := range / op.total;
    newLow := low + op.under * unit;
    newRange := unit * op.count;
    assert Range(newLow, newRange) == narrowed;
    ghost var bytes: seq<byte> := [];
    while true
      invariant pos <= newPos <= limit
      invariant out[..newPos] == old(out[..pos]) + bytes
      invariant Sound(Range(newLow, newRange))
      invariant var (more, last) := Normalize(Range(newLow, newRange));
                Normalize(narrowed).0 == bytes + more && Normalize(narrowed).1 == last
      decreases !Aligned(Range(newLow, newRange)), WORD - newRange
    {
      ghost var r := Range(newLow, newRange);
      NormalizeStep(r);
      if WordTopsDiffer(newLow, newRange) {
        if newRange >= BOTTOM {
          assert bytes + [] == bytes;
          return;
        }
        SettleShift(r);
        newRange := (WORD - newLow) % BOTTOM;
      }
      SettleShift(r);
      if newPos >= limit {
        ok := false;
        return;
      }
      out[newPos] := newLow / TOP;
      newPos := newPos + 1;
      bytes := bytes + [newLow / TOP];
      newRange := newRange * 256;
      newLow := newLow * 256 % WORD;
    }
  }

  /** Writes the bytes of low without its trailing zeros, unless the output is full. */
  method FlushRange(low: uint32, out: array<byte>, pos: nat, limit: nat) returns (ok: bool, newPos: nat)
    requires pos <= limit <= out.Length
    modifies out
    ensures pos <= newPos <= limit
    ensures ok ==> out[..newPos] == old(out[..pos]) + Flush(low)
    ensures !ok ==> pos + |Flush(low)| > limit
  {
    hide Width, Flush;
    var rest: uint32 := low;
    ok, newPos := true, pos;
    ghost var bytes: seq<byte> := [];
    while rest != 0
      invariant pos <= newPos <= limit
      invariant out[..newPos] == old(out[..pos]) + bytes
      invariant Flush(low) == bytes + Flush(rest)
      decreases Width(rest)
    {
      ShiftedWidth(rest);
      FlushFirst(rest);
      if newPos >= limit {
        ok := false;
        return;
      }
      out[newPos] := rest / TOP;
      newPos := newPos + 1;
      bytes := bytes + [rest / TOP];
      rest := rest * 256 % WORD;
    }
    FlushFirst(rest);
  }

  lemma FlushFirst(rest: uint32)
    ensures Flush(rest) == if rest == 0 then [] else [rest / TOP] + Flush(rest * 256 % WORD)
  {
  }

  /** What the decoder holds: the next four bytes of the stream, and how many it has taken. */
  ghost predicate Reads(input: seq<byte>, taken: nat, code: uint32, rest: seq<byte>) {
    taken <= |input| && code == Window(rest) && Drop(rest, 4) == input[taken..] && |rest| <= 4 + |input|
  }

  /** The next byte of the input, or zero past its end. */
  method NextByte(input: array<byte>, taken: nat) returns (b: byte, newTaken: nat)
    requires taken <= input.Length
    ensures b == At(input[taken..], 0)
    ensures newTaken <= input.Length && input[newTaken..] == Drop(input[taken..], 1)
  {
    if taken < input.Length {
      b, newTaken := input[taken], taken + 1;
    } else {
      b, newTaken := 0, taken;
    }
  }

  method SeedCode(input: array<byte>) returns (code: uint32, taken: nat)
    ensures Reads(input[..], taken, code, input[..])
  {
    var b0, t0 := NextByte(input, 0);
    var b1, t1 := NextByte(input, t0);
    var b2, t2 := NextByte(input, t1);
    var b3, t3 := NextByte(input, t2);
    assert input[0..] == input[..];
    DropDrop(input[..], 1, 1);
    DropDrop(input[..], 2, 1);
    DropDrop(input[..], 3, 1);
    code := (b0 as int) * TOP + (b1 as int) * BOTTOM + (b2 as int) * 256 + b3 as int;
    taken := t3;
  }

  /** Follows a coding step through the stream. */
  method DecodeRange(low: uint32, range: uint32, code: uint32, op: Op, input: array<byte>, taken: nat, ghost rest: seq<byte>)
    returns (newLow: uint32, newRange: uint32, newCode: uint32, newTaken: nat, ghost newRest: seq<byte>)
    requires Ready(Range(low, range)) && Fits(op)
    requires Reads(input[..], taken, code, rest)
    ensures Range(newLow, newRange) == Follow(Range(low, range), op, rest).0
    ensures newRest == Follow(Range(low, range), op, rest).1
    ensures Reads(input[..], newTaken, newCode, newRest)
  {
    NarrowSound(Range(low, range), op);
    ghost var narrowed := Narrow(Range(low, range), op);
    hide Normalize, Window, Drop;
    newCode, newTaken, newRest := code, taken, rest;
    var unit := range / op.total;
    newLow := low + op.under * unit;
    newRange := unit * op.count;
    ghost var n: nat := 0;
    while true
      invariant Sound(Range(newLow, newRange))
      invariant var (bytes, last) := Normalize(Range(newLow, newRange));
                Normalize(narrowed).1 == last && |Normalize(narrowed).0| == n + |bytes|
      invariant newRest == Drop(rest, n) && Reads(input[..], newTaken, newCode, newRest)
      decreases !Aligned(Range(newLow, newRange)), WORD - newRange
    {
      ghost var r := Range(newLow, newRange);
      NormalizeStep(r);
      if WordTopsDiffer(newLow, newRange) {
        if newRange >= BOTTOM {
          return;
        }
        SettleShift(r);
        newRange := (WORD - newLow) % BOTTOM;
      }
      SettleShift(r);
      var b: byte;
      WindowDrop(newRest);
      ShiftedLow(newCode);
      b, newTaken := NextByte(input, newTaken);
      newCode := newCode * 256 % WORD + b;
      DropDrop(rest, n, 1);
      DropDrop(newRest, 1, 4);
      DropDrop(newRest, 4, 1);
      newRest := Drop(newRest, 1);
      n := n + 1;
      newRange := newRange * 256;
      newLow := newLow * 256 % WORD;
    }
  }

  /** The slot the decoder reads. */
  method ReadSlot(low: uint32, range: uint32, code: uint32, total: uint16, ghost rest: seq<byte>) returns (slot: uint16)
    requires Ready(Range(low, range)) && total > 0 && code == Window(rest)
    ensures slot == Slot(Range(low, range), total, rest)
  {
    NarrowSound(Range(low, range), Op(0, 1, total));
    slot := (code as int - low as int) % WORD / (range / total) % WORD16;
  }

  lemma ReadsCode(input: seq<byte>, taken: nat, code: uint32, rest: seq<byte>)
    requires Reads(input, taken, code, rest)
    ensures code == Window(rest)
  {
  }
}
