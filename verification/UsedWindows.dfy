/** usedReliableWindows of a channel: one bit for each of the 16 windows. The C code computes with
    wider integers, but only the low 16 bits ever meet the field. */
module UsedWindows {
  import opened SequenceNumbers

  type bits = bv16

  predicate Meet(a: bits, b: bits) {
    a & b != 0
  }

  function One(w: nat): bits
    requires w < WINDOWS
  {
    1 << w
  }

  function Or(a: bits, b: bits): bits {
    a | b
  }

  function Without(a: bits, b: bits): bits {
    a & !b
  }

  predicate Used(used: bits, w: nat)
    requires w < WINDOWS
  {
    Meet(used, One(w))
  }

  function Use(used: bits, w: nat): bits
    requires w < WINDOWS
  {
    Or(used, One(w))
  }

  function Free(used: bits, w: nat): bits
    requires w < WINDOWS
  {
    Without(used, One(w))
  }

  /** The windows from w up to w + 9, around the end. */
  function Ahead(w: nat): bits
    requires w < WINDOWS
  {
    (((1 << (FREE_WINDOWS + 2)) - 1) << w) | (((1 << (FREE_WINDOWS + 2)) - 1) >> (WINDOWS - w))
  }

  predicate Separate(a: bits, b: bits) {
    a & b == 0
  }

  lemma OneDistinct(w: nat, v: nat)
    requires w < WINDOWS && v < WINDOWS && w != v
    ensures Separate(One(w), One(v))
  {
  }

  lemma OneBit(w: nat)
    requires w < WINDOWS
    ensures One(w) != 0 && One(w) & (One(w) - 1) == 0
  {
  }

  lemma AheadBit(w: nat, v: nat)
    requires w < WINDOWS && v < WINDOWS
    ensures Meet(Ahead(w), One(v)) <==> (v + WINDOWS - w) % WINDOWS < FREE_WINDOWS + 2
  {
    hide *;
    if w < 8 { AheadBitLow(w, v); } else { AheadBitHigh(w, v); }
  }

  lemma AheadBitLow(w: nat, v: nat)
    requires w < 8 && v < WINDOWS
    ensures Meet(Ahead(w), One(v)) <==> (v + WINDOWS - w) % WINDOWS < FREE_WINDOWS + 2
  {
    assert Ahead(0) == 0x03FF && Ahead(1) == 0x07FE && Ahead(2) == 0x0FFC && Ahead(3) == 0x1FF8;
    assert Ahead(4) == 0x3FF0 && Ahead(5) == 0x7FE0 && Ahead(6) == 0xFFC0 && Ahead(7) == 0xFF81;
    hide Ahead;
    if w == 0 {} else if w == 1 {} else if w == 2 {} else if w == 3 {} else if w == 4 {} else if w == 5 {} else if w == 6 {} else {}
  }

  lemma AheadBitHigh(w: nat, v: nat)
    requires 8 <= w < WINDOWS && v < WINDOWS
    ensures Meet(Ahead(w), One(v)) <==> (v + WINDOWS - w) % WINDOWS < FREE_WINDOWS + 2
  {
  }

  lemma OtherBit(used: bits, a: bits, b: bits)
    requires Separate(a, b)
    ensures (used | a) & b == used & b
  {
  }

  lemma OtherBitKept(used: bits, a: bits, b: bits)
    requires Separate(a, b)
    ensures used & !a & b == used & b
  {
  }

  lemma OwnBit(used: bits, a: bits)
    ensures (used | a) & a == a && used & !a & a == 0
  {
  }

  lemma OtherMeet(used: bits, a: bits, b: bits)
    requires Separate(a, b)
    ensures Meet(Or(used, a), b) == Meet(used, b)
  {
    OtherBit(used, a, b);
  }

  lemma OtherMeetKept(used: bits, a: bits, b: bits)
    requires Separate(a, b)
    ensures Meet(Without(used, a), b) == Meet(used, b)
  {
    OtherBitKept(used, a, b);
  }

  lemma UseOwn(used: bits, w: nat)
    requires w < WINDOWS
    ensures Used(Use(used, w), w) && !Used(Free(used, w), w)
  {
    OneBit(w);
    hide One;
    OwnBit(used, One(w));
  }

  lemma UseOther(used: bits, w: nat, v: nat)
    requires w < WINDOWS && v < WINDOWS && w != v
    ensures Used(Use(used, w), v) <==> Used(used, v)
    ensures Used(Free(used, w), v) <==> Used(used, v)
  {
    hide One, Meet, Or, Without, Separate;
    OneDistinct(w, v);
    OtherMeet(used, One(w), One(v));
    OtherMeetKept(used, One(w), One(v));
  }

  lemma UseFree(used: bits, w: nat, v: nat)
    requires w < WINDOWS && v < WINDOWS
    ensures Used(Use(used, w), v) <==> v == w || Used(used, v)
    ensures Used(Free(used, w), v) <==> v != w && Used(used, v)
  {
    hide *;
    if w == v {
      UseOwn(used, w);
    } else {
      UseOther(used, w, v);
    }
  }

  lemma NoneUsed(v: nat)
    requires v < WINDOWS
    ensures !Used(0, v)
  {
  }

  /** The number of the lowest bit. */
  lemma SomeBit(x: bits) returns (v: nat)
    requires x != 0
    ensures v < WINDOWS && Meet(x, One(v))
  {
    v := 0;
    while v < WINDOWS && !Meet(x, One(v))
      invariant v <= WINDOWS
      invariant forall u: nat :: u < v ==> !Meet(x, One(u))
    {
      v := v + 1;
    }
    if v == WINDOWS {
      NoBit(x);
      assert false;
    }
  }

  lemma NoBit(x: bits)
    requires forall u: nat :: u < WINDOWS ==> !Meet(x, One(u))
    ensures x == 0
  {
    assert !Meet(x, One(0)) && !Meet(x, One(1)) && !Meet(x, One(2)) && !Meet(x, One(3));
    assert !Meet(x, One(4)) && !Meet(x, One(5)) && !Meet(x, One(6)) && !Meet(x, One(7));
    assert !Meet(x, One(8)) && !Meet(x, One(9)) && !Meet(x, One(10)) && !Meet(x, One(11));
    assert !Meet(x, One(12)) && !Meet(x, One(13)) && !Meet(x, One(14)) && !Meet(x, One(15));
  }

  function Both(a: bits, b: bits): bits {
    a & b
  }

  lemma BothMeets(a: bits, b: bits)
    ensures Meet(a, b) <==> Both(a, b) != 0
  {
  }

  lemma MeetBoth(a: bits, b: bits, c: bits)
    requires Meet(Both(a, b), c)
    ensures Meet(a, c) && Meet(b, c)
  {
  }

  lemma MeetAtBit(a: bits, b: bits, c: bits)
    requires c & (c - 1) == 0 && Meet(a, c) && Meet(b, c)
    ensures Meet(a, b)
  {
  }

  lemma CommonWindow(a: bits, b: bits, v: nat)
    requires v < WINDOWS && Meet(a, One(v)) && Meet(b, One(v))
    ensures Meet(a, b)
  {
    OneBit(v);
    hide One;
    MeetAtBit(a, b, One(v));
  }

  lemma UsedMeets(used: bits, v: nat)
    requires v < WINDOWS
    ensures Used(used, v) <==> Meet(used, One(v))
  {
  }

  /** The mask test of the code: some used window is among the 10 from w on. */
  lemma MeetsAhead(used: bits, w: nat)
    requires w < WINDOWS
    ensures Meet(used, Ahead(w)) <==> exists v: nat :: v < WINDOWS && Used(used, v) && (v + WINDOWS - w) % WINDOWS < FREE_WINDOWS + 2
  {
    hide One, Ahead, Meet, Used, Both;
    BothMeets(used, Ahead(w));
    if Meet(used, Ahead(w)) {
      var v := SomeBit(Both(used, Ahead(w)));
      MeetBoth(used, Ahead(w), One(v));
      AheadBit(w, v);
      UsedMeets(used, v);
    } else if v: nat :| v < WINDOWS && Used(used, v) && (v + WINDOWS - w) % WINDOWS < FREE_WINDOWS + 2 {
      AheadBit(w, v);
      UsedMeets(used, v);
      CommonWindow(used, Ahead(w), v);
      assert false;
    }
  }
}
