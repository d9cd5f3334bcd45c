/** Threads sharing a LinkedBlockingQueue. A thread runs one critical section, or signals the condition
    variable after it, at a time. */
module QueueThreads {
  import opened BlockingQueue

  /** A consumer is elsewhere, about to test whether it has to wait, or asleep on the condition variable. */
  datatype Consumer = Away | Testing | Asleep

  /** signals counts the threads that have left the critical section and have not signalled yet.
      accepted, taken and results are the history of the queue; what a flush removes counts as taken. */
  datatype World<T> = World(queue: QueueState<T>, consumers: seq<Consumer>, signals: nat,
                            accepted: seq<T>, taken: seq<T>, results: seq<Result<T>>)

  datatype Step<T> =
    | Offer(data: T)
    | Shutdown
    | Drain
    | Wake
    | Signal(woken: nat)
    | Spurious(consumer: nat)
    | BeginWait(consumer: nat)
    | Test(consumer: nat)
    | Poll
    | Flush

  /** A signal wakes one sleeping consumer, whichever, and nothing if there is none. */
  predicate Enabled<T>(w: World<T>, step: Step<T>) {
    match step
    case Signal(woken) =>
      w.signals > 0 &&
      if exists c :: 0 <= c < |w.consumers| && w.consumers[c].Asleep? then woken < |w.consumers| && w.consumers[woken].Asleep? else woken == |w.consumers|
    case Spurious(c) => c < |w.consumers| && w.consumers[c].Asleep?
    case BeginWait(c) => c < |w.consumers| && w.consumers[c].Away?
    case Test(c) => c < |w.consumers| && w.consumers[c].Testing?
    case _ => true
  }

  function Gained<T>(r: Result<T>): seq<T> {
    if r.Success? then [r.data] else []
  }

  function Next<T>(w: World<T>, step: Step<T>): World<T>
    requires Enabled(w, step)
  {
    match step
    case Offer(x) =>
      var (q, r) := OfferTo(w.queue, x);
      w.(queue := q,
         accepted := if r.Accepted? then w.accepted + [x] else w.accepted,
         signals := if r.Accepted? && w.queue.items == [] then w.signals + 1 else w.signals)
    case Shutdown => w.(queue := w.queue.(shutdown := true), signals := w.signals + 1)
    case Drain => w.(queue := w.queue.(draining := true), signals := w.signals + 1)
    case Wake => w.(queue := w.queue.(userWake := true), signals := w.signals + 1)
    case Signal(woken) =>
      w.(signals := w.signals - 1,
         consumers := if woken < |w.consumers| then w.consumers[woken := Testing] else w.consumers)
    case Spurious(c) => w.(consumers := w.consumers[c := Testing])
    case BeginWait(c) => w.(consumers := w.consumers[c := Testing])
    case Test(c) =>
      if Ready(w.queue) then
        var (q, r) := WaitOn(w.queue);
        w.(queue := q, consumers := w.consumers[c := Away], taken := w.taken + Gained(r), results := w.results + [r])
      else w.(consumers := w.consumers[c := Asleep])
    case Poll =>
      var (q, r) := PollFrom(w.queue);
      w.(queue := q, taken := w.taken + Gained(r))
    case Flush => w.(queue := w.queue.(items := []), taken := w.taken + w.queue.items)
  }

  ghost predicate Start<T>(w: World<T>) {
    w == World(QueueState([], w.queue.bound, false, false, false), seq(|w.consumers|, _ => Away), 0, [], [], [])
  }

  ghost predicate Run<T>(ws: seq<World<T>>, steps: seq<Step<T>>) {
    && |ws| == |steps| + 1 && Start(ws[0])
    && forall i :: 0 <= i < |steps| ==> Follows(ws[i], steps[i], ws[i + 1])
  }

  ghost predicate Follows<T>(w: World<T>, step: Step<T>, w': World<T>) {
    Enabled(w, step) && w' == Next(w, step)
  }

  // ---- Nothing is lost, doubled or reordered

  ghost predicate Conserved<T>(w: World<T>) {
    w.accepted == w.taken + w.queue.items && |w.queue.items| <= w.queue.bound
  }

  lemma {:induction false} AlwaysConserved<T>(ws: seq<World<T>>, steps: seq<Step<T>>, n: nat)
    requires Run(ws, steps) && n < |ws|
    ensures Conserved(ws[n])
  {
    if n > 0 {
      AlwaysConserved(ws, steps, n - 1);
      assert Follows(ws[n - 1], steps[n - 1], ws[n - 1 + 1]);
      StepConserved(ws[n - 1], steps[n - 1]);
    }
  }

  lemma StepConserved<T>(w: World<T>, step: Step<T>)
    requires Conserved(w) && Enabled(w, step)
    ensures Conserved(Next(w, step)) && Next(w, step).queue.bound == w.queue.bound
    ensures w.accepted <= Next(w, step).accepted && w.taken <= Next(w, step).taken
  {
    var w' := Next(w, step);
    if w.queue.items != [] {
      assert w.queue.items == [w.queue.items[0]] + w.queue.items[1..];
    }
    assert w.taken + w.queue.items + [] == w.taken + w.queue.items;
    match step
    case Offer(x) => assert w.taken + (w.queue.items + [x]) == w.taken + w.queue.items + [x];
    case Flush => assert w'.taken + [] == w'.taken;
    case _ =>
  }

  // ---- Draining

  /** A consumer that is told that a draining queue is at its end has been given everything. */
  lemma DrainedEmpty<T>(ws: seq<World<T>>, steps: seq<Step<T>>, n: nat)
    requires Run(ws, steps) && n < |steps| && steps[n].Test? && Ready(ws[n].queue)
    requires WaitOn(ws[n].queue).1.Interrupted? && !ws[n].queue.shutdown
    ensures ws[n].queue.draining && ws[n].taken == ws[n].accepted
    ensures forall m :: n <= m < |ws| ==> ws[m].accepted == ws[n].accepted
  {
    AlwaysConserved(ws, steps, n);
    assert ws[n].taken + [] == ws[n].taken;
    forall m: nat | n <= m < |ws| ensures ws[m].accepted == ws[n].accepted {
      DrainingStays(ws, steps, n, m);
    }
  }

  lemma {:induction false} DrainingStays<T>(ws: seq<World<T>>, steps: seq<Step<T>>, n: nat, m: nat)
    requires Run(ws, steps) && n <= m < |ws| && ws[n].queue.draining
    ensures ws[m].queue.draining && ws[m].accepted == ws[n].accepted
  {
    if n < m {
      DrainingStays(ws, steps, n, m - 1);
      assert Follows(ws[m - 1], steps[m - 1], ws[m - 1 + 1]);
    }
  }

  // ---- What a consumer gets

  /** One test of the waiting condition. */
  lemma TestGets<T>(w: World<T>, c: nat, w': World<T>)
    requires Follows(w, Test(c), w')
    ensures w'.queue.shutdown == w.queue.shutdown && w'.queue.draining == w.queue.draining && w'.accepted == w.accepted
    ensures w.queue.shutdown ==> w'.results == w.results + [Interrupted] && w'.taken == w.taken && w'.queue == w.queue
    ensures !w.queue.shutdown && w.queue.userWake ==>
              w'.results == w.results + [UserWoken] && w'.taken == w.taken && w'.queue == w.queue.(userWake := false)
    ensures !w.queue.shutdown && !w.queue.userWake && w.queue.items != [] ==>
              && w'.results == w.results + [Success(w.queue.items[0])] && w'.taken == w.taken + [w.queue.items[0]]
              && w'.queue == w.queue.(items := w.queue.items[1..])
    ensures !w.queue.shutdown && !w.queue.userWake && w.queue.items == [] ==>
              && w'.taken == w.taken && w'.queue == w.queue
              && if w.queue.draining then w'.results == w.results + [Interrupted]
                 else w'.results == w.results && w'.consumers[c].Asleep?
  {
  }

  /** One poll, and one offer. */
  lemma PollAndOffer<T>(w: World<T>, x: T, polled: World<T>, offered: World<T>)
    requires Follows(w, Poll, polled) && Follows(w, Offer(x), offered)
    ensures if w.queue.shutdown || w.queue.items == [] then polled == w
            else polled == w.(queue := w.queue.(items := w.queue.items[1..]), taken := w.taken + [w.queue.items[0]])
    ensures if w.queue.shutdown || w.queue.draining || |w.queue.items| == w.queue.bound then offered == w
            else offered == w.(queue := w.queue.(items := w.queue.items + [x]), accepted := w.accepted + [x],
                               signals := if w.queue.items == [] then w.signals + 1 else w.signals)
  {
    assert w.taken + [] == w.taken;
  }

  /** From a stop on, waiting and polling hand out nothing, every wait is interrupted, and nothing is
      accepted, even with data in the queue. */
  lemma {:induction false} StoppedGivesNothing<T>(ws: seq<World<T>>, steps: seq<Step<T>>, n: nat, m: nat)
    requires Run(ws, steps) && n <= m < |ws| && ws[n].queue.shutdown
    ensures ws[m].queue.shutdown && ws[m].accepted == ws[n].accepted
    ensures m < |steps| && !steps[m].Flush? ==> ws[m + 1].taken == ws[m].taken && ws[m + 1].queue.items == ws[m].queue.items
    ensures m < |steps| && steps[m].Test? ==> ws[m + 1].results == ws[m].results + [Interrupted]
  {
    if n < m {
      StoppedGivesNothing(ws, steps, n, m - 1);
      assert Follows(ws[m - 1], steps[m - 1], ws[m - 1 + 1]);
    }
    if m < |steps| {
      assert Follows(ws[m], steps[m], ws[m + 1]);
      assert ws[m].taken + [] == ws[m].taken;
    }
  }

  // ---- No wake-up is lost

  /** If a consumer sleeps although it could go on, a signal is on its way. */
  predicate Awaited<T>(w: World<T>) {
    (exists c :: 0 <= c < |w.consumers| && w.consumers[c].Asleep?) ==>
      w.queue.items != [] || w.queue.draining || w.queue.shutdown || w.queue.userWake ==> w.signals > 0
  }

  lemma {:induction false} NeverForgotten<T>(ws: seq<World<T>>, steps: seq<Step<T>>, n: nat)
    requires Run(ws, steps) && n < |ws| && |ws[0].consumers| <= 1
    ensures Awaited(ws[n]) && |ws[n].consumers| <= 1
  {
    if n > 0 {
      NeverForgotten(ws, steps, n - 1);
      assert Follows(ws[n - 1], steps[n - 1], ws[n - 1 + 1]);
      StepAwaited(ws[n - 1], steps[n - 1]);
    }
  }

  lemma StepAwaited<T>(w: World<T>, step: Step<T>)
    requires Awaited(w) && Enabled(w, step) && |w.consumers| <= 1
    ensures Awaited(Next(w, step)) && |Next(w, step).consumers| <= 1
  {
    if |w.consumers| == 1 && w.consumers[0].Asleep? && Ready(w.queue) {
      assert w.signals > 0;
    }
  }

  /** No consumer is ever forgotten exactly if there is at most one, whatever the bound of the queue. */
  lemma NoneForgottenExactly<T>(consumers: nat, bound: nat)
    ensures (forall ws: seq<World<T>>, steps: seq<Step<T>>, n: nat ::
               Run(ws, steps) && |ws[0].consumers| == consumers && ws[0].queue.bound == bound && n < |ws| ==> Awaited(ws[n]))
            <==> consumers <= 1
  {
    hide Awaited, Start, Follows;
    if consumers <= 1 {
      forall ws: seq<World<T>>, steps: seq<Step<T>>, n: nat
        | Run(ws, steps) && |ws[0].consumers| == consumers && ws[0].queue.bound == bound && n < |ws|
        ensures Awaited(ws[n])
      {
        NeverForgotten(ws, steps, n);
      }
    } else {
      var ws: seq<World<T>>, steps: seq<Step<T>> := StopForgotten(consumers, bound);
      Forgotten(ws[|steps|], consumers);
      assert Run(ws, steps) && |steps| < |ws|;
    }
  }

  lemma Forgotten<T>(w: World<T>, consumers: nat)
    requires consumers >= 2 && w.signals == 0 && Ready(w.queue) && w.consumers == [Away, Asleep] + Others(consumers)
    ensures !Awaited(w)
  {
    assert w.consumers[1].Asleep?;
  }

  /** The consumers that take no part. */
  function Others(consumers: nat): (others: seq<Consumer>)
    requires consumers >= 2
    ensures |others| == consumers - 2
  {
    seq(consumers - 2, _ => Away)
  }

  /** With more than one consumer, a request to stop wakes only one. */
  lemma StopForgotten<T>(consumers: nat, bound: nat) returns (ws: seq<World<T>>, steps: seq<Step<T>>)
    requires consumers >= 2
    ensures Run(ws, steps) && |ws[0].consumers| == consumers && ws[0].queue.bound == bound
    ensures var w := ws[|steps|];
            w.queue.shutdown && w.signals == 0 && w.consumers == [Away, Asleep] + Others(consumers)
  {
    hide Run, Follows, Enabled, Next, Start;
    var w0, w1, w2, w3, w4 := BothFallAsleep<T>(consumers, bound);
    var w5 := w4.(queue := w4.queue.(shutdown := true), signals := 1);
    var w6 := w5.(signals := 0, consumers := [Testing, Asleep] + Others(consumers));
    var w7 := w6.(consumers := [Away, Asleep] + Others(consumers), results := [Interrupted]);
    OneStops(consumers, w4, w5, w6, w7);
    steps := [BeginWait(0), Test(0), BeginWait(1), Test(1), Shutdown, Signal(0), Test(0)];
    ws := [w0, w1, w2, w3, w4, w5, w6, w7];
    ShortRun(ws, steps);
  }

  lemma OneStops<T>(consumers: nat, w4: World<T>, w5: World<T>, w6: World<T>, w7: World<T>)
    requires consumers >= 2 && w4.queue == QueueState([], w4.queue.bound, false, false, false)
    requires w4 == World(w4.queue, [Asleep, Asleep] + Others(consumers), 0, [], [], [])
    requires w5 == w4.(queue := w4.queue.(shutdown := true), signals := 1)
    requires w6 == w5.(signals := 0, consumers := [Testing, Asleep] + Others(consumers))
    requires w7 == w6.(consumers := [Away, Asleep] + Others(consumers), results := [Interrupted])
    ensures Follows(w4, Shutdown, w5) && Follows(w5, Signal(0), w6) && Follows(w6, Test(0), w7)
  {
    assert w5.consumers[0].Asleep?;
    assert w5.consumers[0 := Testing] == w6.consumers;
    assert w6.consumers[0 := Away] == w7.consumers;
  }

  /** Nor is it only stopping: of two items only the first is signalled. */
  lemma ItemForgotten(consumers: nat, bound: nat) returns (ws: seq<World<int>>, steps: seq<Step<int>>)
    requires consumers >= 2 && bound >= 2
    ensures Run(ws, steps) && |ws[0].consumers| == consumers && ws[0].queue.bound == bound
    ensures var w := ws[|steps|];
            w.queue.items == [2] && w.signals == 0 && w.consumers == [Away, Asleep] + Others(consumers)
  {
    hide Run, Follows, Enabled, Next, Start;
    var w0, w1, w2, w3, w4 := BothFallAsleep<int>(consumers, bound);
    var w5 := w4.(queue := w4.queue.(items := [1]), accepted := [1], signals := 1);
    var w6 := w5.(queue := w4.queue.(items := [1, 2]), accepted := [1, 2]);
    var w7, w8 := OneIsWoken(consumers, w4, w5, w6);
    steps := [BeginWait(0), Test(0), BeginWait(1), Test(1), Offer(1), Offer(2), Signal(0), Test(0)];
    ws := [w0, w1, w2, w3, w4, w5, w6, w7, w8];
    ShortRun(ws, steps);
  }

  lemma BothFallAsleep<T>(consumers: nat, bound: nat)
    returns (w0: World<T>, w1: World<T>, w2: World<T>, w3: World<T>, w4: World<T>)
    requires consumers >= 2
    ensures Start(w0) && |w0.consumers| == consumers && w0.queue.bound == bound
    ensures w4 == World(QueueState([], bound, false, false, false), [Asleep, Asleep] + Others(consumers), 0, [], [], [])
    ensures Follows(w0, BeginWait(0), w1) && Follows(w1, Test(0), w2) && Follows(w2, BeginWait(1), w3) && Follows(w3, Test(1), w4)
  {
    var others := Others(consumers);
    w0 := World(QueueState([], bound, false, false, false), [Away, Away] + others, 0, [], [], []);
    assert seq(consumers, _ => Away) == [Away, Away] + others;
    w1 := w0.(consumers := [Testing, Away] + others);
    w2 := w0.(consumers := [Asleep, Away] + others);
    w3 := w0.(consumers := [Asleep, Testing] + others);
    w4 := w0.(consumers := [Asleep, Asleep] + others);
    assert w0.consumers[0 := Testing] == w1.consumers && w1.consumers[0 := Asleep] == w2.consumers;
    assert w2.consumers[1 := Testing] == w3.consumers && w3.consumers[1 := Asleep] == w4.consumers;
  }

  lemma OneIsWoken(consumers: nat, w4: World<int>, w5: World<int>, w6: World<int>) returns (w7: World<int>, w8: World<int>)
    requires consumers >= 2 && w4.queue == QueueState([], w4.queue.bound, false, false, false) && w4.queue.bound >= 2
    requires w4 == World(w4.queue, [Asleep, Asleep] + Others(consumers), 0, [], [], [])
    requires w5 == w4.(queue := w4.queue.(items := [1]), accepted := [1], signals := 1)
    requires w6 == w5.(queue := w4.queue.(items := [1, 2]), accepted := [1, 2])
    ensures Follows(w4, Offer(1), w5) && Follows(w5, Offer(2), w6) && Follows(w6, Signal(0), w7) && Follows(w7, Test(0), w8)
    ensures w8.queue.items == [2] && w8.signals == 0 && w8.consumers == [Away, Asleep] + Others(consumers)
  {
    w7 := w6.(signals := 0, consumers := [Testing, Asleep] + Others(consumers));
    w8 := w7.(queue := w4.queue.(items := [2]), consumers := [Away, Asleep] + Others(consumers), taken := [1], results := [Success(1)]);
    assert w6.consumers[0].Asleep?;
    assert w6.consumers[0 := Testing] == w7.consumers && w7.consumers[0 := Away] == w8.consumers;
    assert [1, 2][1..] == [2];
  }

  lemma ShortRun<T>(ws: seq<World<T>>, steps: seq<Step<T>>)
    requires |steps| in {7, 8} && |ws| == |steps| + 1 && Start(ws[0])
    requires Follows(ws[0], steps[0], ws[1]) && Follows(ws[1], steps[1], ws[2]) && Follows(ws[2], steps[2], ws[3])
    requires Follows(ws[3], steps[3], ws[4]) && Follows(ws[4], steps[4], ws[5]) && Follows(ws[5], steps[5], ws[6])
    requires Follows(ws[6], steps[6], ws[7]) && (|steps| == 8 ==> Follows(ws[7], steps[7], ws[8]))
    ensures Run(ws, steps)
  {
    hide Follows, Start;
  }
}
