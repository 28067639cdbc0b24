/** The averages that print_stat shows (client.cc): it reads the shared counters one after another
    while all threads go on updating them, in an order that the language leaves open. */
module Averages {
  import opened LoadClient
  import opened LoadTest

  /** Subtraction of the unsigned 64-bit counters. */
  function Minus64(a: int, b: int): nat {
    (a - b) % 0x1_0000_0000_0000_0000
  }

  function Max(a: nat, b: nat): nat {
    if a >= b then a else b
  }

  function ConnectAverage(connectionSum: int, children: int, connectionErrors: int): int {
    connectionSum / Max(Minus64(children, connectionErrors), 1)
  }

  function LatencyAverage(latencySum: int, msgs: int): int {
    Minus64(latencySum, 0) / Max(Minus64(msgs, 0), 1)
  }

  lemma QuotientBound(a: int, n: int, b: nat)
    requires n >= 1 && 0 <= a <= n * b
    ensures a / n <= b
  {
    var q := a / n;
    assert n * q <= a;
    ProductOrder(n, q, b);
  }

  lemma ProductOrder(n: int, q: int, b: int)
    requires n >= 1 && n * q <= n * b
    ensures q <= b
  {
    assert n * (b - q) >= 0;
  }

  /** `average` is the quotient, rounded down. */
  predicate RoundedDown(average: int, sum: int, n: int) {
    n * average <= sum < n * (average + 1)
  }

  lemma QuotientRoundsDown(a: nat, n: nat)
    requires n > 0
    ensures RoundedDown(a / n, a, n)
  {
    var q := a / n;
    assert a == n * q + a % n;
    ProductOfNext(n, q);
  }

  lemma ProductOfNext(n: int, q: int)
    ensures n * (q + 1) == n * q + n
  {
  }

  /** Within 64 bits: the sum over the messages, rounded down, and the sum itself before any message. */
  lemma LatencyAverageExactly(latencySum: nat, msgs: nat)
    requires latencySum < 0x1_0000_0000_0000_0000 && msgs < 0x1_0000_0000_0000_0000
    ensures RoundedDown(LatencyAverage(latencySum, msgs), latencySum, if msgs == 0 then 1 else msgs)
  {
    QuotientRoundsDown(latencySum, Max(msgs, 1));
  }

  /** The divisor is the number of children without error, or one when there is none. If more errors than
      children have been read, the difference wraps, and the average shown is 0. */
  lemma ConnectAverageExactly(sum: nat, children: nat, errors: nat)
    requires children < 0x1_0000_0000_0000_0000 && errors < 0x1_0000_0000_0000_0000
    ensures
      var average := ConnectAverage(sum, children, errors);
      if children > errors then RoundedDown(average, sum, children - errors)
      else if children == errors then average == sum
      else sum < 0x1_0000_0000_0000_0000 - (errors - children) ==> average == 0
  {
    if children > errors {
      QuotientRoundsDown(sum, children - errors);
    } else if children < errors {
      var n := 0x1_0000_0000_0000_0000 - (errors - children);
      assert Minus64(children, errors) == n;
      if sum < n {
        QuotientRoundsDown(sum, n);
        SmallQuotient(sum, n);
      }
    }
  }

  lemma SmallQuotient(a: nat, n: nat)
    requires a < n
    ensures a / n == 0
  {
  }

  // ----- The counters along a run -----

  ghost predicate Grows(a: Counters, b: Counters) {
    && a.children <= b.children
    && a.connectionErrors <= b.connectionErrors
    && a.exchangeErrors <= b.exchangeErrors
    && a.connectionSum <= b.connectionSum
    && a.latencySum <= b.latencySum
    && a.msgs <= b.msgs
  }

  lemma {:induction false} RunGrows(w: World, es: seq<Event>)
    ensures Grows(w.total, Run(w, es).total)
    decreases |es|
  {
    if es != [] {
      RunGrows(Step(w, es[0]), es[1..]);
    }
  }

  ghost predicate Sane(t: Counters) {
    && 0 <= t.connectionErrors && t.children <= CLIENTS_MAX + 1
    && 0 <= t.connectionSum <= (t.children - t.connectionErrors) * CLIENT_TIMEOUT_MCS
    && 0 <= t.msgs && 0 <= t.latencySum <= t.msgs * CLIENT_TIMEOUT_MCS
  }

  lemma InvBoundsTotals(w: World)
    requires Inv(w)
    ensures Sane(w.total)
  {
    SumBounds(w.handlers);
  }

  /** The totals at three moments of one run. */
  lemma ThreeMoments(now: nat, before: seq<Event>, first: seq<Event>, second: seq<Event>)
    ensures
      var w0 := Run(Start(now), before);
      var w1 := Run(w0, first);
      var w2 := Run(w1, second);
      && Sane(w0.total) && Sane(w1.total) && Sane(w2.total)
      && Grows(w0.total, w1.total) && Grows(w1.total, w2.total)
  {
    var w0 := Run(Start(now), before);
    var w1 := Run(w0, first);
    StartInv(now);
    RunKeepsInv(Start(now), before);
    InvBoundsTotals(w0);
    RunKeepsInv(w0, first);
    InvBoundsTotals(w1);
    RunKeepsInv(w1, second);
    InvBoundsTotals(Run(w1, second));
    RunGrows(w0, first);
    RunGrows(w1, second);
  }

  // ----- The connection average -----

  /** The three counters that the connection average is made of. */
  datatype Figure = TheSum | TheChildren | TheErrors

  datatype Order = Order(first: Figure, second: Figure, third: Figure)

  predicate Complete(o: Order) {
    o.first != o.second && o.second != o.third && o.first != o.third
  }

  /** The totals at the moment at which f is read. */
  function ReadAt(o: Order, f: Figure, t0: Counters, t1: Counters, t2: Counters): Counters {
    if o.first == f then t0 else if o.second == f then t1 else t2
  }

  function ShownConnectAverage(o: Order, t0: Counters, t1: Counters, t2: Counters): int {
    ConnectAverage(
      ReadAt(o, TheSum, t0, t1, t2).connectionSum,
      ReadAt(o, TheChildren, t0, t1, t2).children,
      ReadAt(o, TheErrors, t0, t1, t2).connectionErrors)
  }

  /** The average shown in a run with any events before, between and after the reads. */
  predicate ConnectBounded(o: Order, now: nat, before: seq<Event>, first: seq<Event>, second: seq<Event>) {
    var w0 := Run(Start(now), before);
    var w1 := Run(w0, first);
    var w2 := Run(w1, second);
    ShownConnectAverage(o, w0.total, w1.total, w2.total) <= CLIENT_TIMEOUT_MCS
  }

  ghost predicate ConnectAlwaysBounded(o: Order) {
    forall now, before, first, second :: ConnectBounded(o, now, before, first, second)
  }

  lemma ChildrenLastIsSafe(o: Order, t0: Counters, t1: Counters, t2: Counters)
    requires Complete(o) && o.third == TheChildren
    requires Sane(t0) && Sane(t1) && Sane(t2) && Grows(t0, t1) && Grows(t1, t2)
    ensures ShownConnectAverage(o, t0, t1, t2) <= CLIENT_TIMEOUT_MCS
  {
    var sum := ReadAt(o, TheSum, t0, t1, t2).connectionSum;
    var errors := ReadAt(o, TheErrors, t0, t1, t2).connectionErrors;
    assert 0 <= sum <= t1.connectionSum && 0 <= errors <= t1.connectionErrors;
    var n := t2.children - errors;
    assert sum <= n * CLIENT_TIMEOUT_MCS;
    assert Minus64(t2.children, errors) == n;
    QuotientBound(sum, Max(n, 1), CLIENT_TIMEOUT_MCS);
  }

  /** Over the six orders of the three reads, with any updates in between: the connection average stays
      within the timeout in every run if and only if the children are read last. */
  lemma ConnectAverageBoundedIff(o: Order)
    requires Complete(o)
    ensures ConnectAlwaysBounded(o) <==> o.third == TheChildren
  {
    if o.third == TheChildren {
      forall now, before, first, second ensures ConnectBounded(o, now, before, first, second) {
        ThreeMoments(now, before, first, second);
        var w0 := Run(Start(now), before);
        var w1 := Run(w0, first);
        ChildrenLastIsSafe(o, w0.total, w1.total, Run(w1, second).total);
      }
    } else {
      var slow, failure := TwoSlowConnectsThenFailure();
      if o.third == TheErrors {
        ErrorsLastExceeds(o, slow, failure);
      } else {
        SumLastExceeds(o, slow);
      }
    }
  }

  ghost predicate TwoSlow(slow: seq<Event>) {
    var t := Run(Start(0), slow).total;
    t.connectionSum == 2 * CLIENT_TIMEOUT_MCS && t.children == 2 && t.connectionErrors == 0
  }

  /** Sum and children are read after two connects at the limit, the errors after a third has failed. */
  lemma ErrorsLastExceeds(o: Order, slow: seq<Event>, failure: seq<Event>)
    requires Complete(o) && o.third == TheErrors && TwoSlow(slow)
    requires Run(Run(Start(0), slow), failure).total.connectionErrors == 1
    ensures !ConnectBounded(o, 0, slow, [], failure)
  {
    var w := Run(Start(0), slow);
    assert Run(w, []) == w;
    var t, u := w.total, Run(w, failure).total;
    assert ShownConnectAverage(o, t, t, u) == ConnectAverage(2 * CLIENT_TIMEOUT_MCS, 2, 1);
  }

  /** Children and errors are read before anything has happened, the sum after two connects. */
  lemma SumLastExceeds(o: Order, slow: seq<Event>)
    requires Complete(o) && o.third == TheSum && TwoSlow(slow)
    ensures !ConnectBounded(o, 0, [], [], slow)
  {
    var w := Start(0);
    assert Run(w, []) == w;
    assert ShownConnectAverage(o, w.total, w.total, Run(w, slow).total) ==
      ConnectAverage(2 * CLIENT_TIMEOUT_MCS, 0, 0);
  }

  // ----- The latency average -----

  predicate LatencyBounded(sumFirst: bool, now: nat, before: seq<Event>, between: seq<Event>) {
    var t := Run(Start(now), before).total;
    var u := Run(Run(Start(now), before), between).total;
    (if sumFirst then LatencyAverage(t.latencySum, u.msgs) else LatencyAverage(u.latencySum, t.msgs))
      <= CLIENT_TIMEOUT_MCS
  }

  /** The counter of messages stays within its 64 bits in this run. (A sum that wraps only shrinks.) */
  predicate Fits(now: nat, before: seq<Event>, between: seq<Event>) {
    Run(Run(Start(now), before), between).total.msgs < 0x1_0000_0000_0000_0000
  }

  ghost predicate LatencyAlwaysBounded(sumFirst: bool) {
    forall now, before, between :: Fits(now, before, between) ==> LatencyBounded(sumFirst, now, before, between)
  }

  /** Of the two orders of `latency_summ_mcs` and `msgs`, the latency average stays within the timeout
      in every run if and only if the sum is read first. */
  lemma LatencyAverageBoundedIff(sumFirst: bool)
    ensures LatencyAlwaysBounded(sumFirst) <==> sumFirst
  {
    if sumFirst {
      forall now, before, between | Fits(now, before, between)
        ensures LatencyBounded(sumFirst, now, before, between)
      {
        ThreeMoments(now, before, between, []);
        var t := Run(Start(now), before).total;
        var u := Run(Run(Start(now), before), between).total;
        assert Minus64(u.msgs, 0) == u.msgs;
        assert Minus64(t.latencySum, 0) <= t.latencySum;
        QuotientBound(Minus64(t.latencySum, 0), Max(u.msgs, 1), CLIENT_TIMEOUT_MCS);
      }
    } else {
      var before, between := TwoLateAnswers();
      assert LatencyAverage(2 * CLIENT_TIMEOUT_MCS, 0) > CLIENT_TIMEOUT_MCS;
      assert Fits(0, before, between) && !LatencyBounded(false, 0, before, between);
    }
  }

  // ----- Runs of single handlers -----

  function ActsAt(i: nat, evs: seq<Local>): (es: seq<Event>)
    ensures |es| == |evs|
    ensures forall k :: 0 <= k < |evs| ==> es[k] == Act(i, evs[k])
  {
    seq(|evs|, k requires 0 <= k < |evs| => Act(i, evs[k]))
  }

  /** The world after the events `evs` of handler i, but for the totals. */
  lemma {:induction false} ActMany(w: World, i: nat, evs: seq<Local>)
    requires i < |w.handlers|
    ensures
      var v := Run(w, ActsAt(i, evs));
      && v.handlers == w.handlers[i := TurnAll(w.handlers[i], w.now, evs)]
      && v.now == w.now && v.mainPending == w.mainPending && v.servicesI == w.servicesI
    decreases |evs|
  {
    if evs != [] {
      assert ActsAt(i, evs)[1..] == ActsAt(i, evs[1..]);
      ActMany(Step(w, Act(i, evs[0])), i, evs[1..]);
    }
  }

  // ----- Handlers that wait for their connect -----

  /** What matters of a healthy handler for its further course. */
  predicate At(h: Handler, pc: Pc, queue: seq<nat>, latencySum: int, msgs: int) {
    && h.id < CLIENTS_MAX && !h.errored && h.connectStart == 0
    && h.pc == pc && h.tqueue == queue
    && h.mine.latencySum == latencySum && h.mine.msgs == msgs
  }

  predicate Unconnected(h: Handler) {
    h.mine.children == 0 && h.mine.connectionSum == 0 && h.mine.connectionErrors == 0
  }

  predicate Slow(h: Handler) {
    At(h, Connecting, [], 0, 0) && Unconnected(h)
  }

  lemma Arms(h: Handler, now: nat)
    requires At(h, Constructing, [], 0, 0) && Unconnected(h)
    ensures var g := Turn(h, now, Next); At(g, Armed, [], 0, 0) && Unconnected(g) && g.bear
  {
  }

  lemma Dials(h: Handler)
    requires At(h, Armed, [], 0, 0) && Unconnected(h) && h.bear
    ensures var g := Turn(h, 0, Next); Slow(g) && g.bear
  {
  }

  lemma StartsConnecting(h: Handler)
    requires At(h, Constructing, [], 0, 0) && Unconnected(h)
    ensures Slow(TurnAll(h, 0, [Next, Next])) && TurnAll(h, 0, [Next, Next]).bear
  {
    Arms(h, 0);
    Dials(Turn(h, 0, Next));
    TurnsTwice(h, 0, Next, Next);
  }

  function Connects(failed: bool): seq<Local> {
    [ConnectDone(failed), Next] + [Next, Next]
  }

  /** At the limit of the timeout a connect still counts in full; a failed one counts as an error. */
  lemma SlowOutcome(h: Handler, failed: bool)
    requires Slow(h)
    ensures
      var m := TurnAll(h, CLIENT_TIMEOUT_MCS, Connects(failed)).mine;
      && m.children == 1
      && m.connectionSum == (if failed then 0 else CLIENT_TIMEOUT_MCS)
      && m.connectionErrors == (if failed then 1 else 0)
  {
    var t := CLIENT_TIMEOUT_MCS;
    TurnAllAppend(h, t, [ConnectDone(failed), Next], [Next, Next]);
    TurnsTwice(h, t, ConnectDone(failed), Next);
    TurnsTwice(TurnAll(h, t, [ConnectDone(failed), Next]), t, Next, Next);
  }

  predicate AllSlow(w: World, n: nat) {
    && |w.handlers| == w.servicesI == n && w.now == 0
    && (w.mainPending <==> n == 0)
    && (n > 0 ==> w.handlers[n - 1].bear)
    && (forall i :: 0 <= i < n ==> Slow(w.handlers[i]))
  }

  lemma OneMoreHandler(w: World, n: nat, e: Event)
    requires AllSlow(w, n) && n < CLIENTS_MAX && e == if n == 0 then Launch else Bear(n - 1)
    ensures
      var v := Step(w, e);
      && |v.handlers| == v.servicesI == n + 1 && v.now == 0 && !v.mainPending
      && At(v.handlers[n], Constructing, [], 0, 0) && Unconnected(v.handlers[n])
      && (forall i :: 0 <= i < n ==> Slow(v.handlers[i]))
  {
    var hs := Step(w, e).handlers;
    assert hs[n] == Fresh(w.servicesI);
    if n > 0 {
      assert hs[n - 1] == w.handlers[n - 1].(bear := false);
      assert Slow(w.handlers[n - 1]);
    }
    assert forall i :: 0 <= i < n - 1 ==> hs[i] == w.handlers[i];
  }

  lemma OneMoreSlow(w: World, n: nat) returns (es: seq<Event>)
    requires AllSlow(w, n) && n < CLIENTS_MAX
    ensures AllSlow(Run(w, es), n + 1)
  {
    var e := if n == 0 then Launch else Bear(n - 1);
    var v := Step(w, e);
    OneMoreHandler(w, n, e);
    RunOne(w, e);
    StartsConnecting(v.handlers[n]);
    ActMany(v, n, [Next, Next]);
    RunAppend(w, [e], ActsAt(n, [Next, Next]));
    es := [e] + ActsAt(n, [Next, Next]);
  }

  lemma ThreeSlow() returns (es: seq<Event>)
    ensures AllSlow(Run(Start(0), es), 3)
  {
    var a := OneMoreSlow(Start(0), 0);
    var b := OneMoreSlow(Run(Start(0), a), 1);
    RunAppend(Start(0), a, b);
    var c := OneMoreSlow(Run(Start(0), a + b), 2);
    RunAppend(Start(0), a + b, c);
    es := a + b + c;
  }

  lemma SumOfThree(hs: seq<Handler>)
    requires |hs| == 3
    ensures Sum(hs).children == hs[0].mine.children + hs[1].mine.children + hs[2].mine.children
    ensures Sum(hs).connectionSum ==
      hs[0].mine.connectionSum + hs[1].mine.connectionSum + hs[2].mine.connectionSum
    ensures Sum(hs).connectionErrors ==
      hs[0].mine.connectionErrors + hs[1].mine.connectionErrors + hs[2].mine.connectionErrors
  {
    assert hs[..2][..1] == hs[..1];
    assert hs[..1][..0] == [];
    assert Sum(hs[..1]) == Plus(Sum([]), hs[0].mine);
    assert Sum(hs[..2]) == Plus(Sum(hs[..1]), hs[1].mine);
    assert Sum(hs) == Plus(Sum(hs[..2]), hs[2].mine);
  }

  /** One of three waiting handlers gets the outcome of its connect at the limit of the timeout. */
  lemma Outcome(now: nat, es: seq<Event>, i: nat, failed: bool) returns (more: seq<Event>)
    requires
      var w := Run(Start(now), es);
      i < |w.handlers| && w.now == CLIENT_TIMEOUT_MCS && Slow(w.handlers[i])
    ensures
      var w, v := Run(Start(now), es), Run(Start(now), es + more);
      && v == Run(w, more) && v.now == w.now
      && v.handlers == w.handlers[i := TurnAll(w.handlers[i], CLIENT_TIMEOUT_MCS, Connects(failed))]
      && v.total == Sum(v.handlers)
  {
    var w := Run(Start(now), es);
    more := ActsAt(i, Connects(failed));
    ActMany(w, i, Connects(failed));
    RunAppend(Start(now), es, more);
    StartInv(now);
    RunKeepsInv(Start(now), es + more);
  }

  lemma TwoSlowConnectsThenFailure() returns (slow: seq<Event>, failure: seq<Event>)
    ensures TwoSlow(slow)
    ensures Run(Run(Start(0), slow), failure).total.connectionErrors == 1
  {
    var es := ThreeSlow();
    var w := Run(Start(0), es);
    var tick := Tick(CLIENT_TIMEOUT_MCS);
    RunAppend(Start(0), es, [tick]);
    RunOne(w, tick);
    es := es + [tick];
    var hs := w.handlers;
    SlowOutcome(hs[0], false);
    SlowOutcome(hs[1], false);
    SlowOutcome(hs[2], true);
    var a := Outcome(0, es, 0, false);
    var b := Outcome(0, es + a, 1, false);
    slow := es + a + b;
    SumOfThree(Run(Start(0), slow).handlers);
    failure := Outcome(0, slow, 2, true);
    SumOfThree(Run(Start(0), slow + failure).handlers);
  }

  // ----- One handler, two late answers -----

  lemma OpeningTurns(h: Handler, queue: seq<nat>)
    ensures At(h, Connecting, queue, 0, 0) ==>
      At(Turn(Turn(h, 0, ConnectDone(false)), 0, Next), CountedInactive(false), queue, 0, 0)
    ensures At(h, CountedInactive(false), queue, 0, 0) ==>
      At(Turn(Turn(h, 0, Next), 0, Next), Opening, queue, 0, 0)
    ensures At(h, Opening, queue, 0, 0) ==>
      At(Turn(Turn(h, 0, Next), 0, SendDue), Idle, queue + [0] + [0], 0, 0)
  {
  }

  lemma OpenAndSendTwice(start: Handler) returns (evs: seq<Local>)
    requires At(start, Connecting, [], 0, 0)
    ensures At(TurnAll(start, 0, evs), Idle, [] + [0] + [0], 0, 0)
  {
    evs := [ConnectDone(false), Next];
    TurnsTwice(start, 0, ConnectDone(false), Next);
    OpeningTurns(start, []);
    var h := TurnAll(start, 0, evs);
    OpeningTurns(h, []);
    h, evs := ThenTwo(start, 0, evs, h, Next, Next);
    OpeningTurns(h, []);
    h, evs := ThenTwo(start, 0, evs, h, Next, SendDue);
  }

  /** Two more events after a history that leads from `start` to h. */
  lemma ThenTwo(start: Handler, now: nat, evs: seq<Local>, h: Handler, a: Local, b: Local)
    returns (g: Handler, more: seq<Local>)
    requires h == TurnAll(start, now, evs)
    ensures g == TurnAll(start, now, more) == Turn(Turn(h, now, a), now, b)
  {
    TurnAllAppend(start, now, evs, [a, b]);
    TurnsTwice(h, now, a, b);
    more := evs + [a, b];
    g := TurnAll(start, now, more);
  }

  lemma AnswerTurns(h: Handler, rest: seq<nat>, now: nat, sum: int, n: int)
    requires At(h, Idle, [0] + rest, sum, n) && now <= CLIENT_TIMEOUT_MCS
    ensures At(TurnAll(h, now, [ReadDone(true), Next, Next]), Idle, rest, sum + now, n + 1)
  {
    TurnsThrice(h, now, ReadDone(true), Next, Next);
    assert ([0] + rest)[1..] == rest;
    assert Turn(h, now, ReadDone(true)).pc == Answered(now);
  }

  lemma TwoAnswers(start: Handler, now: nat) returns (evs: seq<Local>)
    requires At(start, Idle, [] + [0] + [0], 0, 0) && now <= CLIENT_TIMEOUT_MCS
    ensures At(TurnAll(start, now, evs), Idle, [], 2 * now, 2)
  {
    var last: seq<nat> := [0] + [];
    assert [] + [0] + [0] == [0] + last;
    var answer := [ReadDone(true), Next, Next];
    AnswerTurns(start, last, now, 0, 0);
    AnswerTurns(TurnAll(start, now, answer), [], now, now, 1);
    TurnAllAppend(start, now, answer, answer);
    evs := answer + answer;
  }

  lemma SumOfOne(hs: seq<Handler>)
    requires |hs| == 1
    ensures Sum(hs).msgs == hs[0].mine.msgs && Sum(hs).latencySum == hs[0].mine.latencySum
  {
    assert hs[..0] == [];
  }

  /** The only handler goes through these events, of which the world's totals are its own. */
  lemma Alone(now: nat, es: seq<Event>, evs: seq<Local>) returns (more: seq<Event>)
    requires |Run(Start(now), es).handlers| == 1
    ensures
      var w, v := Run(Start(now), es), Run(Start(now), es + more);
      && v == Run(w, more) && v.now == w.now && |v.handlers| == 1
      && v.handlers[0] == TurnAll(w.handlers[0], w.now, evs)
      && v.total.msgs == v.handlers[0].mine.msgs && v.total.latencySum == v.handlers[0].mine.latencySum
  {
    var w := Run(Start(now), es);
    more := ActsAt(0, evs);
    ActMany(w, 0, evs);
    RunAppend(Start(now), es, more);
    StartInv(now);
    RunKeepsInv(Start(now), es + more);
    SumOfOne(Run(Start(now), es + more).handlers);
  }

  lemma TwoPending() returns (before: seq<Event>)
    ensures
      var w := Run(Start(0), before);
      |w.handlers| == 1 && At(w.handlers[0], Idle, [] + [0] + [0], 0, 0) && w.now == 0 && w.total.msgs == 0
  {
    var start := OneMoreSlow(Start(0), 0);
    var opening := OpenAndSendTwice(Run(Start(0), start).handlers[0]);
    var more := Alone(0, start, opening);
    before := start + more;
  }

  lemma BothAnsweredAt(start: nat, before: seq<Event>, t: nat) returns (between: seq<Event>)
    requires
      var w := Run(Start(start), before);
      |w.handlers| == 1 && At(w.handlers[0], Idle, [] + [0] + [0], 0, 0) && w.now == 0
    requires t <= CLIENT_TIMEOUT_MCS
    ensures
      var total := Run(Run(Start(start), before), between).total;
      total.msgs == 2 && total.latencySum == 2 * t
  {
    var w := Run(Start(start), before);
    RunOne(w, Tick(t));
    RunAppend(Start(start), before, [Tick(t)]);
    var answers := TwoAnswers(w.handlers[0], t);
    var more := Alone(start, before + [Tick(t)], answers);
    RunAppend(w, [Tick(t)], more);
    between := [Tick(t)] + more;
  }

  /** A handler pipelines two requests, and both answers come at the limit of the timeout. */
  lemma TwoLateAnswers() returns (before: seq<Event>, between: seq<Event>)
    ensures Run(Start(0), before).total.msgs == 0
    ensures
      var t := Run(Run(Start(0), before), between).total;
      t.msgs == 2 && t.latencySum == 2 * CLIENT_TIMEOUT_MCS
  {
    before := TwoPending();
    between := BothAnsweredAt(0, before, CLIENT_TIMEOUT_MCS);
  }
}
