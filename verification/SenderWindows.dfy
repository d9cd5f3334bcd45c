/** How a sender's counters for 16 windows describe the numbers it sent and has not had acknowledged. */
module SenderWindows {
  import opened Words
  import opened Sets
  import opened SequenceNumbers
  import opened UsedWindows
  import opened ReliableLink

  /** outgoing is the last number given out; windows and used count the unacknowledged ones. */
  datatype ChannelOut = ChannelOut(outgoing: uint16, windows: seq<nat>, used: bits)

  /** The unacknowledged numbers whose 16-bit form is in window w. */
  ghost function InWindow(unacked: set<nat>, w: nat): (s: set<nat>) {
    set u | u in unacked && Low(u) / WINDOW_SIZE == w
  }

  ghost predicate Counted(ch: ChannelOut, unacked: set<nat>) {
    && |ch.windows| == WINDOWS
    && forall w: nat :: w < WINDOWS ==>
         ch.windows[w] == |InWindow(unacked, w)| && (Used(ch.used, w) <==> ch.windows[w] > 0)
  }

  /** The counters after number n was sent for the first time. */
  function CountUp(ch: ChannelOut, n: uint16): (ch': ChannelOut)
    requires |ch.windows| == WINDOWS
  {
    var w := n / WINDOW_SIZE;
    ch.(used := Use(ch.used, w), windows := ch.windows[w := ch.windows[w] + 1])
  }

  /** The counters after number n was acknowledged. */
  function CountDown(ch: ChannelOut, n: uint16): (ch': ChannelOut)
    requires |ch.windows| == WINDOWS
  {
    var w := n / WINDOW_SIZE;
    if ch.windows[w] > 0 then
      var ch' := ch.(windows := ch.windows[w := ch.windows[w] - 1]);
      if ch'.windows[w] == 0 then ch'.(used := Free(ch'.used, w)) else ch'
    else ch
  }

  /** The test before the first command of a window is sent. */
  predicate Blocked(ch: ChannelOut, n: uint16)
    requires |ch.windows| == WINDOWS
  {
    var w := n / WINDOW_SIZE;
    n % WINDOW_SIZE == 0 &&
    (ch.windows[(w + WINDOWS - 1) % WINDOWS] >= WINDOW_SIZE || Meet(ch.used, Ahead(w)))
  }

  lemma CountNext(ch: ChannelOut, unacked: set<nat>, q: nat)
    requires Counted(ch, unacked) && q !in unacked
    ensures Counted(CountUp(ch, Low(q)), unacked + {q})
  {
    hide Use, Used;
    var n := Low(q) / WINDOW_SIZE;
    forall w: nat | w < WINDOWS
      ensures var ch' := CountUp(ch, Low(q));
              ch'.windows[w] == |InWindow(unacked + {q}, w)| && (Used(ch'.used, w) <==> ch'.windows[w] > 0)
    {
      UseFree(ch.used, n, w);
      assert InWindow(unacked + {q}, w) == if w == n then InWindow(unacked, w) + {q} else InWindow(unacked, w);
    }
  }

  lemma UncountGone(ch: ChannelOut, unacked: set<nat>, q: nat)
    requires Counted(ch, unacked) && q in unacked
    ensures ch.windows[Low(q) / WINDOW_SIZE] > 0
    ensures Counted(CountDown(ch, Low(q)), unacked - {q})
  {
    hide Free, Used;
    var n := Low(q) / WINDOW_SIZE;
    assert q in InWindow(unacked, n);
    forall w: nat | w < WINDOWS
      ensures var ch' := CountDown(ch, Low(q));
              ch'.windows[w] == |InWindow(unacked - {q}, w)| && (Used(ch'.used, w) <==> ch'.windows[w] > 0)
    {
      UseFree(ch.used, n, w);
      assert InWindow(unacked - {q}, w) == if w == n then InWindow(unacked, w) - {q} else InWindow(unacked, w);
    }
  }

  // ---- What the test means

  /** Within 7 windows, the low bits of a window's number tell the window. */
  lemma SameWindow(s: Sender, u: nat, w: nat)
    requires Narrow(s) && u in s.unacked && w <= SequenceNumbers.Window(s.first) + 1 && SequenceNumbers.Window(s.first) <= w + 8
    ensures Low(u) / WINDOW_SIZE == w % WINDOWS <==> SequenceNumbers.Window(u) == w
  {
    LowParts(u);
    WindowMonotone(u, s.first);
  }

  lemma WindowRange(w: nat, u: nat)
    ensures SequenceNumbers.Window(u) == w <==> u in Range(w * WINDOW_SIZE, WINDOW_SIZE)
  {
  }

  /** The counter of a window is full exactly if every number in it is unacknowledged. */
  lemma FullMeaning(ch: ChannelOut, s: Sender, w: nat)
    requires Counted(ch, s.unacked) && Narrow(s) && w == SequenceNumbers.Window(s.first)
    ensures ch.windows[w % WINDOWS] >= WINDOW_SIZE <==> FullWindow(s, w)
  {
    hide Range, Narrow, SequenceNumbers.Window, Low;
    var all, here := Range(w * WINDOW_SIZE, WINDOW_SIZE), InWindow(s.unacked, w % WINDOWS);
    forall u: nat ensures u in here <==> u in s.unacked && u in all {
      WindowRange(w, u);
      if u in s.unacked { SameWindow(s, u, w); }
    }
    SubsetSize(here, all);
    if FullWindow(s, w) {
      forall u: nat | u in all ensures u in here { WindowRange(w, u); }
      assert here == all;
    } else {
      var u: nat :| SequenceNumbers.Window(u) == w && u !in s.unacked;
      WindowRange(w, u);
      assert u in all && u !in here;
    }
  }

  lemma Residue(u: nat, w: nat)
    requires u < w <= u + 7
    ensures (u % WINDOWS + WINDOWS - w % WINDOWS) % WINDOWS < FREE_WINDOWS + 2 <==> u + 7 == w
  {
  }

  lemma UnackedWindow(ch: ChannelOut, s: Sender, w: nat, u: nat)
    requires Counted(ch, s.unacked) && Narrow(s) && w == SequenceNumbers.Window(s.first) + 1 && u in s.unacked
    ensures var v := Low(u) / WINDOW_SIZE;
            && v < WINDOWS && Used(ch.used, v) && v == SequenceNumbers.Window(u) % WINDOWS
            && SequenceNumbers.Window(u) < w <= SequenceNumbers.Window(u) + 7
            && ((v + WINDOWS - w % WINDOWS) % WINDOWS < FREE_WINDOWS + 2 <==> SequenceNumbers.Window(u) + 7 == w)
  {
    hide Used, SequenceNumbers.Window;
    LowParts(u);
    WindowMonotone(u, s.first);
    assert u in InWindow(s.unacked, Low(u) / WINDOW_SIZE);
    Residue(SequenceNumbers.Window(u), w);
  }

  lemma UsedMember(ch: ChannelOut, unacked: set<nat>, v: nat) returns (u: nat)
    requires Counted(ch, unacked) && v < WINDOWS && Used(ch.used, v)
    ensures u in unacked && Low(u) / WINDOW_SIZE == v
  {
    hide Used, Low;
    assert InWindow(unacked, v) != {};
    u :| u in InWindow(unacked, v);
  }

  /** A window from w on is used exactly if some unacknowledged number is more than 6 windows back. */
  lemma AheadMeans(ch: ChannelOut, s: Sender, w: nat)
    requires Counted(ch, s.unacked) && Narrow(s) && w == SequenceNumbers.Window(s.first) + 1
    ensures Meet(ch.used, Ahead(w % WINDOWS)) <==>
            !(forall u: nat :: u in s.unacked ==> SequenceNumbers.Window(u) + FREE_WINDOWS - 2 >= w)
  {
    hide Used, Meet, Ahead, SequenceNumbers.Window, Low, Counted, Narrow;
    MeetsAhead(ch.used, w % WINDOWS);
    if Meet(ch.used, Ahead(w % WINDOWS)) {
      var v: nat :| v < WINDOWS && Used(ch.used, v) && (v + WINDOWS - w % WINDOWS) % WINDOWS < FREE_WINDOWS + 2;
      var u := UsedMember(ch, s.unacked, v);
      UnackedWindow(ch, s, w, u);
    } else {
      forall u: nat | u in s.unacked ensures SequenceNumbers.Window(u) + FREE_WINDOWS - 2 >= w {
        UnackedWindow(ch, s, w, u);
      }
    }
  }

  /** The test on 16-bit numbers and counters stops the sender exactly when the rule on all the
      numbers does. */
  lemma BlockedMeans(ch: ChannelOut, s: Sender)
    requires Counted(ch, s.unacked) && Narrow(s)
    ensures Blocked(ch, Low(s.first + 1)) <==> !MaySendNext(s)
    ensures Blocked(ch, Low(s.first + 1)) <==>
              && (s.first + 1) % 4096 == 0
              && (|| (forall u: nat :: s.first + 1 - 4096 <= u <= s.first ==> u in s.unacked)
                  || exists u: nat :: u in s.unacked && u / 4096 + 7 <= (s.first + 1) / 4096)
  {
    hide *;
    BlockedExactly(ch, s);
    MaySendInNumbers(s);
  }

  lemma BlockedExactly(ch: ChannelOut, s: Sender)
    requires Counted(ch, s.unacked) && Narrow(s)
    ensures Blocked(ch, Low(s.first + 1)) <==> !MaySendNext(s)
  {
    hide Counted, Narrow, Meet, Ahead, FullWindow;
    var q := s.first + 1;
    LowParts(q);
    NextWindow(s.first);
    CountedSizes(ch, s.unacked);
    if q % WINDOW_SIZE == 0 {
      var w := SequenceNumbers.Window(q);
      assert Low(q) / WINDOW_SIZE == w % WINDOWS;
      assert (w % WINDOWS + WINDOWS - 1) % WINDOWS == (w - 1) % WINDOWS;
      FullMeaning(ch, s, w - 1);
      AheadMeans(ch, s, w);
    }
  }

  /** The rule in numbers: the first command of a window may not be sent while all 4096 commands before it
      are unacknowledged, or one is that is 7 windows back or more. */
  lemma MaySendInNumbers(s: Sender)
    ensures !MaySendNext(s) <==>
              && (s.first + 1) % 4096 == 0
              && (|| (forall u: nat :: s.first + 1 - 4096 <= u <= s.first ==> u in s.unacked)
                  || exists u: nat :: u in s.unacked && u / 4096 + 7 <= (s.first + 1) / 4096)
  {
    var q := s.first + 1;
    if q % 4096 == 0 {
      forall u: nat ensures SequenceNumbers.Window(u) == SequenceNumbers.Window(q) - 1 <==> q - 4096 <= u <= s.first {
        WindowBefore(q, u);
      }
      if FullWindow(s, SequenceNumbers.Window(q) - 1) {
        forall u: nat | q - 4096 <= u <= s.first ensures u in s.unacked {
          WindowBefore(q, u);
        }
      } else {
        var u: nat :| SequenceNumbers.Window(u) == SequenceNumbers.Window(q) - 1 && u !in s.unacked;
        WindowBefore(q, u);
      }
    }
  }

  lemma WindowBefore(q: nat, u: nat)
    requires q % 4096 == 0 && q > 0
    ensures SequenceNumbers.Window(q) >= 1
    ensures SequenceNumbers.Window(u) == SequenceNumbers.Window(q) - 1 <==> q - 4096 <= u <= q - 1
  {
  }

  lemma CountedSizes(ch: ChannelOut, unacked: set<nat>)
    requires Counted(ch, unacked)
    ensures |ch.windows| == WINDOWS
  {
  }
}
