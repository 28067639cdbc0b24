/** What the latency sum of the load client measures: over any run without errors of a handler, the
    time-integral of its number of unanswered requests. */
module LatencyIntegral {
  import opened LoadClient
  import opened LoadTest

  predicate Exists(w: World, i: nat) {
    i < |w.handlers|
  }

  /** Requests sent and not answered, counted from the history. */
  function Outstanding(w: World, i: nat): int {
    if Exists(w, i) then |w.handlers[i].pushed| - |w.handlers[i].answered| else 0
  }

  /** The area under the number of unanswered requests of handler i over the run `es` from `w`. */
  function Integral(w: World, es: seq<Event>, i: nat): int
    decreases |es|
  {
    if es == [] then 0 else
    (if es[0].Tick? then es[0].d * Outstanding(w, i) else 0) + Integral(Step(w, es[0]), es[1..], i)
  }

  /** The time the queued timers have been running. */
  function Ages(q: seq<nat>, now: nat): int {
    if q == [] then 0 else Ages(q[..|q| - 1], now) + now - q[|q| - 1]
  }

  lemma {:induction false} AgesLater(q: seq<nat>, now: nat, d: nat)
    ensures Ages(q, now + d) == Ages(q, now) + d * |q|
  {
    if q != [] {
      AgesLater(q[..|q| - 1], now, d);
    }
  }

  lemma {:induction false} AgesWithoutOldest(q: seq<nat>, now: nat)
    requires q != []
    ensures Ages(q, now) == Ages(q[1..], now) + now - q[0]
  {
    var n := |q| - 1;
    if n > 0 {
      AgesWithoutOldest(q[..n], now);
      assert q[..n][1..] == q[1..][..n - 1];
    }
  }

  lemma AgesWithNew(q: seq<nat>, now: nat)
    ensures Ages(q + [now], now) == Ages(q, now)
  {
    assert (q + [now])[..|q|] == q;
  }

  /** Latency added, measured, or still accruing. */
  function Charge(h: Handler, now: nat): int {
    h.mine.latencySum + Measured(h) + Ages(h.tqueue, now)
  }

  function ChargeOf(w: World, i: nat): int {
    if Exists(w, i) then Charge(w.handlers[i], w.now) else 0
  }

  predicate Healthy(w: World, i: nat) {
    Exists(w, i) ==> !w.handlers[i].errored
  }

  lemma TurnKeepsCharge(h: Handler, now: nat, ev: Local)
    requires Timed(h, now) && !Turn(h, now, ev).errored
    ensures !h.errored && Charge(Turn(h, now, ev), now) == Charge(h, now)
  {
    if Pushes(h, ev) {
      PushTurn(h, now, ev);
      AgesWithNew(h.tqueue, now);
    } else if Compares(h, ev) {
      CompareTurn(h, now, ev);
      if h.tqueue != [] {
        assert h.tqueue[0] in h.pushed;
        AgesWithoutOldest(h.tqueue, now);
      }
    } else {
      QuietTurn(h, now, ev);
    }
  }

  lemma ChargeLater(h: Handler, now: nat, d: nat)
    ensures Charge(h, now + d) == Charge(h, now) + d * |h.tqueue|
  {
    AgesLater(h.tqueue, now, d);
  }

  lemma QueueIsOutstanding(w: World, i: nat)
    requires Inv(w) && Exists(w, i)
    ensures |w.handlers[i].tqueue| == Outstanding(w, i)
  {
    assert Timed(w.handlers[i], w.now);
  }

  lemma TickCharges(w: World, d: nat, i: nat)
    requires Inv(w)
    ensures ChargeOf(Step(w, Tick(d)), i) == ChargeOf(w, i) + d * Outstanding(w, i)
  {
    if Exists(w, i) {
      QueueIsOutstanding(w, i);
      ChargeLater(w.handlers[i], w.now, d);
    }
  }

  lemma ActCharges(w: World, k: nat, ev: Local, i: nat)
    requires Inv(w) && Healthy(Step(w, Act(k, ev)), i)
    ensures Healthy(w, i) && ChargeOf(Step(w, Act(k, ev)), i) == ChargeOf(w, i)
  {
    if k == i && Exists(w, i) {
      assert Timed(w.handlers[i], w.now);
      TurnKeepsCharge(w.handlers[i], w.now, ev);
    }
  }

  lemma StepCharges(w: World, e: Event, i: nat)
    requires Inv(w) && Healthy(Step(w, e), i)
    ensures Healthy(w, i)
    ensures ChargeOf(Step(w, e), i) ==
      ChargeOf(w, i) + (if e.Tick? then e.d * Outstanding(w, i) else 0)
  {
    match e
    case Launch =>
    case Bear(_) =>
    case Act(k, ev) => ActCharges(w, k, ev, i);
    case Tick(d) => TickCharges(w, d, i);
  }

  /** At every moment of a run without errors of handler i: its latency sum, plus the latency it has
      measured but not yet added, plus the ages of its queued timers, is the time-integral of its
      number of unanswered requests. */
  lemma {:induction false} LatencyIsIntegral(w: World, es: seq<Event>, i: nat)
    requires Inv(w) && Healthy(Run(w, es), i)
    ensures Healthy(w, i)
    ensures ChargeOf(Run(w, es), i) == ChargeOf(w, i) + Integral(w, es, i)
    decreases |es|
  {
    if es != [] {
      StepKeepsInv(w, es[0]);
      LatencyIsIntegral(Step(w, es[0]), es[1..], i);
      StepCharges(w, es[0], i);
    }
  }

  /** From the start of the test, with every request answered and every answer counted, the latency
      sum is the integral. */
  lemma AnsweredLatencyIsIntegral(now: nat, es: seq<Event>, i: nat)
    requires
      var w := Run(Start(now), es);
      Exists(w, i) && !w.handlers[i].errored && w.handlers[i].pc == Idle && w.handlers[i].tqueue == []
    ensures Run(Start(now), es).handlers[i].mine.latencySum == Integral(Start(now), es, i)
  {
    StartInv(now);
    LatencyIsIntegral(Start(now), es, i);
  }

  // ----- All handlers together -----

  function TotalOutstanding(hs: seq<Handler>): int {
    if hs == [] then 0 else
    var h := hs[|hs| - 1];
    TotalOutstanding(hs[..|hs| - 1]) + |h.pushed| - |h.answered|
  }

  function TotalIntegral(w: World, es: seq<Event>): int
    decreases |es|
  {
    if es == [] then 0 else
    (if es[0].Tick? then es[0].d * TotalOutstanding(w.handlers) else 0) + TotalIntegral(Step(w, es[0]), es[1..])
  }

  /** The sum of the first n handlers' integrals. */
  function SumOfIntegrals(w: World, es: seq<Event>, n: nat): int {
    if n == 0 then 0 else SumOfIntegrals(w, es, n - 1) + Integral(w, es, n - 1)
  }

  function SumOfOutstanding(w: World, n: nat): int {
    if n == 0 then 0 else SumOfOutstanding(w, n - 1) + Outstanding(w, n - 1)
  }

  lemma {:induction false} OutstandingOfPrefix(w: World, hs: seq<Handler>)
    requires hs <= w.handlers
    ensures SumOfOutstanding(w, |hs|) == TotalOutstanding(hs)
  {
    if hs != [] {
      OutstandingOfPrefix(w, hs[..|hs| - 1]);
    }
  }

  lemma {:induction false} NobodyBeyond(w: World, n: nat)
    requires n >= |w.handlers|
    ensures SumOfOutstanding(w, n) == TotalOutstanding(w.handlers)
  {
    if n == |w.handlers| {
      OutstandingOfPrefix(w, w.handlers);
    } else {
      NobodyBeyond(w, n - 1);
    }
  }

  lemma {:induction false} IntegralsUnfold(w: World, es: seq<Event>, n: nat)
    requires es != []
    ensures SumOfIntegrals(w, es, n) ==
      (if es[0].Tick? then es[0].d * SumOfOutstanding(w, n) else 0) + SumOfIntegrals(Step(w, es[0]), es[1..], n)
  {
    if n > 0 {
      IntegralsUnfold(w, es, n - 1);
    }
  }

  lemma {:induction false} IntegralsAdd(w: World, es: seq<Event>, n: nat)
    requires n >= |Run(w, es).handlers|
    ensures SumOfIntegrals(w, es, n) == TotalIntegral(w, es)
    decreases |es|
  {
    if es == [] {
      NoIntegrals(w, n);
    } else {
      HandlersGrow(Step(w, es[0]), es[1..]);
      HandlersGrow(w, es);
      IntegralsUnfold(w, es, n);
      IntegralsAdd(Step(w, es[0]), es[1..], n);
      NobodyBeyond(w, n);
    }
  }

  lemma {:induction false} NoIntegrals(w: World, n: nat)
    ensures SumOfIntegrals(w, [], n) == 0
  {
    if n > 0 {
      NoIntegrals(w, n - 1);
    }
  }

  lemma {:induction false} HandlersGrow(w: World, es: seq<Event>)
    ensures |w.handlers| <= |Run(w, es).handlers|
    decreases |es|
  {
    if es != [] {
      HandlersGrow(Step(w, es[0]), es[1..]);
    }
  }

  ghost predicate AllAnswered(w: World) {
    forall i :: 0 <= i < |w.handlers| ==>
      var h := w.handlers[i]; !h.errored && h.tqueue == [] && Measured(h) == 0
  }

  lemma {:induction false} LatencyOfPrefix(now: nat, es: seq<Event>, n: nat)
    requires AllAnswered(Run(Start(now), es)) && n <= |Run(Start(now), es).handlers|
    ensures Sum(Run(Start(now), es).handlers[..n]).latencySum == SumOfIntegrals(Start(now), es, n)
  {
    var w := Run(Start(now), es);
    if n > 0 {
      LatencyOfPrefix(now, es, n - 1);
      assert w.handlers[..n][..n - 1] == w.handlers[..n - 1];
      StartInv(now);
      LatencyIsIntegral(Start(now), es, n - 1);
    }
  }

  /** Little's law for the statistics on the screen: when no handler has failed and every request has
      been answered and counted, the shared `latency_summ_mcs` is the time-integral of the number of
      requests in flight over all connections. */
  lemma LatencySumIsTotalIntegral(now: nat, es: seq<Event>)
    requires AllAnswered(Run(Start(now), es))
    ensures Run(Start(now), es).total.latencySum == TotalIntegral(Start(now), es)
  {
    var w := Run(Start(now), es);
    StartInv(now);
    RunKeepsInv(Start(now), es);
    LatencyOfPrefix(now, es, |w.handlers|);
    assert w.handlers[..|w.handlers|] == w.handlers;
    IntegralsAdd(Start(now), es, |w.handlers|);
  }
}
