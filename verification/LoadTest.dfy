/** The whole load test: handlers that construct each other in a chain, and shared counters updated
    by all of them in any interleaving (client.cc). */
module LoadTest {
  import opened LoadClient

  /** `servicesI` is the shared id counter; `mainPending` says that `main` has not yet constructed the
      first handler. A handler stands in `handlers` from the moment its id has been taken. */
  datatype World = World(
    servicesI: nat,
    handlers: seq<Handler>,
    total: Counters,
    now: nat,
    mainPending: bool)

  /** `Launch`: main constructs the first handler; `Bear(i)`: the timer of handler i fires and its
      successor takes an id; `Act`: one update of one handler; `Tick`: time passes. */
  datatype Event = Launch | Bear(i: nat) | Act(who: nat, ev: Local) | Tick(d: nat)

  function Start(now: nat): World {
    World(0, [], ZERO, now, true)
  }

  function Constructed(w: World): World {
    w.(handlers := w.handlers + [Fresh(w.servicesI)], servicesI := w.servicesI + 1)
  }

  function Step(w: World, e: Event): World {
    match e
    case Launch => if w.mainPending then Constructed(w.(mainPending := false)) else w
    case Bear(i) =>
      if i < |w.handlers| && w.handlers[i].bear
      then Constructed(w.(handlers := w.handlers[i := w.handlers[i].(bear := false)]))
      else w
    case Act(i, ev) =>
      if i < |w.handlers| then
        var h := w.handlers[i];
        w.(handlers := w.handlers[i := Turn(h, w.now, ev)], total := Plus(w.total, Micro(h, w.now, ev).d))
      else w
    case Tick(d) => w.(now := w.now + d)
  }

  function Run(w: World, es: seq<Event>): World
    decreases |es|
  {
    if es == [] then w else Run(Step(w, es[0]), es[1..])
  }

  lemma {:induction false} RunAppend(w: World, es: seq<Event>, fs: seq<Event>)
    ensures Run(w, es + fs) == Run(Run(w, es), fs)
    decreases |es|
  {
    if es == [] {
      assert es + fs == fs;
    } else {
      assert (es + fs)[1..] == es[1..] + fs;
      RunAppend(Step(w, es[0]), es[1..], fs);
    }
  }

  lemma RunOne(w: World, e: Event)
    ensures Run(w, [e]) == Step(w, e)
  {
    assert [e][1..] == [];
  }

  // ----- The invariant -----

  function Sum(hs: seq<Handler>): Counters {
    if hs == [] then ZERO else Plus(Sum(hs[..|hs| - 1]), hs[|hs| - 1].mine)
  }

  lemma {:induction false} SumOfUpdate(hs: seq<Handler>, i: nat, h: Handler, d: Counters)
    requires i < |hs| && h.mine == Plus(hs[i].mine, d)
    ensures Sum(hs[i := h]) == Plus(Sum(hs), d)
  {
    var n := |hs| - 1;
    if i == n {
      assert hs[i := h][..n] == hs[..n];
    } else {
      assert hs[i := h][..n] == hs[..n][i := h];
      SumOfUpdate(hs[..n], i, h, d);
    }
  }

  /** The handler that may still construct a successor. */
  predicate Spawning(h: Handler) {
    h.pc == Constructing || h.bear
  }

  /** One chain: all but the last handler have constructed their successor, and the last one will,
      unless it is the surplus handler that ends the chain. */
  predicate Chain(w: World) {
    && w.servicesI == |w.handlers| <= CLIENTS_MAX + 1
    && (w.mainPending <==> w.handlers == [])
    && (forall i :: 0 <= i < |w.handlers| ==> Link(w.handlers, i))
  }

  predicate Link(hs: seq<Handler>, i: nat)
    requires i < |hs|
  {
    var h := hs[i];
    && h.id == i
    && (Attempting(h) ==> i < CLIENTS_MAX)
    && (h.pc == Surplus ==> i >= CLIENTS_MAX)
    && (h.bear ==> Attempting(h))
    && (if i < |hs| - 1 then Attempting(h) && !h.bear else Attempting(h) ==> h.bear)
  }

  predicate HandlersOk(w: World) {
    forall i :: 0 <= i < |w.handlers| ==> Accounted(w.handlers[i]) && Timed(w.handlers[i], w.now)
  }

  ghost predicate Inv(w: World) {
    && Chain(w)
    && HandlersOk(w)
    && w.total == Sum(w.handlers)
  }

  lemma TurnKeepsChain(h: Handler, now: nat, ev: Local)
    ensures Turn(h, now, ev).id == h.id
    ensures Attempting(h) ==> Attempting(Turn(h, now, ev)) && Turn(h, now, ev).bear == h.bear
    ensures h.pc == Surplus ==> Turn(h, now, ev).pc == Surplus && Turn(h, now, ev).bear == h.bear
    ensures h.pc == Constructing && !h.bear ==>
      var g := Turn(h, now, ev);
      && (g.pc == Surplus ==> h.id >= CLIENTS_MAX && !g.bear)
      && (Attempting(g) ==> h.id < CLIENTS_MAX && g.bear)
      && (g.pc == Constructing ==> !g.bear)
  {
  }

  lemma ConstructedKeepsChain(w: World)
    requires w.servicesI == |w.handlers| <= CLIENTS_MAX && !w.mainPending
    requires forall i :: 0 <= i < |w.handlers| ==> Done(w.handlers, i)
    ensures Chain(Constructed(w))
  {
    var v := Constructed(w);
    forall i | 0 <= i < |v.handlers| ensures Link(v.handlers, i) {
      assert i < |w.handlers| ==> Done(w.handlers, i);
    }
  }

  /** A handler whose successor has been constructed. */
  predicate Done(hs: seq<Handler>, i: nat)
    requires i < |hs|
  {
    hs[i].id == i < CLIENTS_MAX && Attempting(hs[i]) && !hs[i].bear
  }

  lemma ConstructedKeepsHandlers(w: World)
    requires HandlersOk(w) && w.total == Sum(w.handlers)
    ensures HandlersOk(Constructed(w)) && Constructed(w).total == Sum(Constructed(w).handlers)
  {
    var v := Constructed(w);
    assert v.handlers[..|w.handlers|] == w.handlers;
    forall i | 0 <= i < |v.handlers| ensures Accounted(v.handlers[i]) && Timed(v.handlers[i], v.now) {
      assert i < |w.handlers| ==> Accounted(w.handlers[i]) && Timed(w.handlers[i], w.now);
    }
  }

  /** A change of one handler that keeps it in order keeps the others. */
  lemma UpdateKeepsHandlers(w: World, i: nat, h: Handler)
    requires HandlersOk(w) && i < |w.handlers| && Accounted(h) && Timed(h, w.now)
    ensures HandlersOk(w.(handlers := w.handlers[i := h]))
  {
  }

  lemma BearFires(w: World, i: nat) returns (v: World)
    requires Inv(w) && i < |w.handlers| && w.handlers[i].bear
    ensures v == w.(handlers := w.handlers[i := w.handlers[i].(bear := false)])
    ensures v.servicesI == |v.handlers| <= CLIENTS_MAX && !v.mainPending
    ensures forall j :: 0 <= j < |v.handlers| ==> Done(v.handlers, j)
  {
    v := w.(handlers := w.handlers[i := w.handlers[i].(bear := false)]);
    assert Link(w.handlers, i);
    forall j | 0 <= j < |v.handlers| ensures Done(v.handlers, j) {
      assert Link(w.handlers, j);
    }
  }

  lemma BearKeepsInv(w: World, i: nat)
    requires Inv(w) && i < |w.handlers| && w.handlers[i].bear
    ensures Inv(Step(w, Bear(i)))
  {
    var h := w.handlers[i].(bear := false);
    var v := BearFires(w, i);
    UnarmedKeeps(w.handlers[i], w.now);
    UpdateKeepsHandlers(w, i, h);
    NoGain(h.mine);
    NoGain(w.total);
    SumOfUpdate(w.handlers, i, h, ZERO);
    ConstructedKeepsChain(v);
    ConstructedKeepsHandlers(v);
  }

  lemma UnarmedKeeps(h: Handler, now: nat)
    requires Accounted(h) && Timed(h, now)
    ensures Accounted(h.(bear := false)) && Timed(h.(bear := false), now)
  {
  }

  lemma ActKeepsChain(w: World, i: nat, ev: Local)
    requires Chain(w) && i < |w.handlers|
    ensures Chain(Step(w, Act(i, ev)))
  {
    var v := Step(w, Act(i, ev));
    TurnKeepsChain(w.handlers[i], w.now, ev);
    forall j | 0 <= j < |v.handlers| ensures Link(v.handlers, j) {
      assert Link(w.handlers, j);
    }
  }

  lemma ActKeepsInv(w: World, i: nat, ev: Local)
    requires Inv(w) && i < |w.handlers|
    ensures Inv(Step(w, Act(i, ev)))
  {
    var h := w.handlers[i];
    ActKeepsChain(w, i, ev);
    TurnKeepsAccounted(h, w.now, ev);
    TurnKeepsTimed(h, w.now, ev);
    UpdateKeepsHandlers(w, i, Turn(h, w.now, ev));
    SumOfUpdate(w.handlers, i, Turn(h, w.now, ev), Micro(h, w.now, ev).d);
  }

  lemma StepKeepsInv(w: World, e: Event)
    requires Inv(w)
    ensures Inv(Step(w, e))
  {
    match e
    case Launch =>
      if w.mainPending {
        ConstructedKeepsChain(w.(mainPending := false));
        ConstructedKeepsHandlers(w.(mainPending := false));
      }
    case Bear(i) =>
      if i < |w.handlers| && w.handlers[i].bear {
        BearKeepsInv(w, i);
      }
    case Act(i, ev) =>
      if i < |w.handlers| {
        ActKeepsInv(w, i, ev);
      }
    case Tick(d) =>
      var v := Step(w, e);
      assert forall i :: 0 <= i < |w.handlers| ==> Link(w.handlers, i) && Link(v.handlers, i);
      forall i | 0 <= i < |w.handlers| ensures Timed(v.handlers[i], v.now) {
        LaterKeepsTimed(w.handlers[i], w.now, v.now);
      }
  }

  lemma {:induction false} RunKeepsInv(w: World, es: seq<Event>)
    requires Inv(w)
    ensures Inv(Run(w, es))
    decreases |es|
  {
    if es != [] {
      StepKeepsInv(w, es[0]);
      RunKeepsInv(Step(w, es[0]), es[1..]);
    }
  }

  lemma StartInv(now: nat)
    ensures Inv(Start(now))
  {
  }

  // ----- The spawn chain -----

  ghost predicate OneSpawner(hs: seq<Handler>) {
    forall i, j :: 0 <= i < j < |hs| ==> !(Spawning(hs[i]) && Spawning(hs[j]))
  }

  ghost predicate NoSpawner(w: World) {
    !w.mainPending && forall i :: 0 <= i < |w.handlers| ==> !Spawning(w.handlers[i])
  }

  ghost predicate ConsecutiveIds(hs: seq<Handler>) {
    forall i :: 0 <= i < |hs| ==> hs[i].id == i
  }

  ghost predicate AllAttempting(hs: seq<Handler>) {
    forall i :: 0 <= i < |hs| ==> Attempting(hs[i])
  }

  lemma ChainFacts(w: World)
    requires Chain(w)
    ensures ConsecutiveIds(w.handlers) && OneSpawner(w.handlers)
    ensures w.mainPending ==> w.handlers == []
  {
    forall i | 0 <= i < |w.handlers| ensures w.handlers[i].id == i {
      assert Link(w.handlers, i);
    }
    forall i, j | 0 <= i < j < |w.handlers|
      ensures !(Spawning(w.handlers[i]) && Spawning(w.handlers[j]))
    {
      assert Link(w.handlers, i);
    }
  }

  lemma FinishedChain(w: World)
    requires Chain(w) && NoSpawner(w)
    ensures |w.handlers| == CLIENTS_MAX + 1
    ensures w.handlers[CLIENTS_MAX].pc == Surplus
    ensures AllAttempting(w.handlers[..CLIENTS_MAX])
  {
    var last := |w.handlers| - 1;
    assert Link(w.handlers, last);
    assert !Spawning(w.handlers[last]);
    forall i | 0 <= i < last ensures Attempting(w.handlers[i]) {
      assert Link(w.handlers, i);
    }
  }

  /** In every reachable state at most one handler can still construct another, ids are the positions
      in the chain, and no more than `clients_max + 1` ids are ever taken. When nobody can construct
      any more, exactly `clients_max` handlers have gone on to attempt a connection, and the one after
      them has not. */
  lemma SpawnChain(now: nat, es: seq<Event>)
    ensures
      var w := Run(Start(now), es);
      && w.servicesI == |w.handlers| <= CLIENTS_MAX + 1
      && ConsecutiveIds(w.handlers)
      && OneSpawner(w.handlers) && (w.mainPending ==> w.handlers == [])
      && (NoSpawner(w) ==>
        && |w.handlers| == CLIENTS_MAX + 1
        && w.handlers[CLIENTS_MAX].pc == Surplus
        && AllAttempting(w.handlers[..CLIENTS_MAX]))
  {
    StartInv(now);
    RunKeepsInv(Start(now), es);
    var w := Run(Start(now), es);
    ChainFacts(w);
    if NoSpawner(w) {
      FinishedChain(w);
    }
  }

  /** How much of the chain is still to come. */
  function ToSpawn(w: World): int {
    var n := |w.handlers|;
    2 * (CLIENTS_MAX + 1 - n) + (if n > 0 && w.handlers[n - 1].pc == Constructing then 1 else 0)
  }

  lemma LastSpawns(w: World)
    requires Chain(w) && !NoSpawner(w) && !w.mainPending
    ensures w.handlers != [] && Spawning(w.handlers[|w.handlers| - 1])
    ensures w.handlers[|w.handlers| - 1].bear ==> |w.handlers| <= CLIENTS_MAX
  {
    var i: nat :| i < |w.handlers| && Spawning(w.handlers[i]);
    assert Link(w.handlers, i);
  }

  /** A step that adds a handler, or takes the last one past its construction. */
  predicate Moves(w: World, v: World) {
    var n := |w.handlers|;
    && v.now == w.now
    && (|v.handlers| == n + 1
        || (|v.handlers| == n > 0 && w.handlers[n - 1].pc == Constructing && v.handlers[n - 1].pc != Constructing))
  }

  lemma MovesDecrease(w: World, v: World)
    requires Moves(w, v) && |v.handlers| <= CLIENTS_MAX + 1
    ensures 0 <= ToSpawn(v) < ToSpawn(w)
  {
  }

  lemma LaunchMoves(w: World, e: Event)
    requires w.mainPending && e.Launch?
    ensures Moves(w, Step(w, e))
  {
  }

  lemma BearMoves(w: World, i: nat)
    requires i < |w.handlers| && w.handlers[i].bear
    ensures Moves(w, Step(w, Bear(i)))
  {
  }

  lemma ConstructionMoves(w: World, i: nat)
    requires |w.handlers| == i + 1 && w.handlers[i].pc == Constructing
    ensures Moves(w, Step(w, Act(i, Next)))
  {
    ConstructingMovesOn(w.handlers[i], w.now);
  }

  lemma ConstructingMovesOn(h: Handler, now: nat)
    requires h.pc == Constructing
    ensures Turn(h, now, Next).pc != Constructing
  {
  }

  lemma SpawnStage(w: World) returns (e: Event)
    requires Inv(w) && !NoSpawner(w)
    ensures Inv(Step(w, e)) && Moves(w, Step(w, e))
  {
    if w.mainPending {
      e := Launch;
      LaunchMoves(w, e);
    } else {
      LastSpawns(w);
      var last := |w.handlers| - 1;
      if w.handlers[last].bear {
        e := Bear(last);
        BearMoves(w, last);
      } else {
        e := Act(last, Next);
        ConstructionMoves(w, last);
      }
    }
    StepKeepsInv(w, e);
  }

  lemma {:induction false} FinishSpawning(w: World) returns (fs: seq<Event>)
    requires Inv(w)
    ensures Inv(Run(w, fs)) && NoSpawner(Run(w, fs)) && Run(w, fs).now == w.now
    decreases ToSpawn(w)
  {
    if NoSpawner(w) {
      fs := [];
    } else {
      var e := SpawnStage(w);
      MovesDecrease(w, Step(w, e));
      var rest := FinishSpawning(Step(w, e));
      RunOne(w, e);
      RunAppend(w, [e], rest);
      fs := [e] + rest;
    }
  }

  /** The chain never breaks: from every reachable state it can go on, at once, until exactly `clients_max`
      handlers have been brought to their connect, and the surplus one has ended it. */
  lemma CanAlwaysFinishSpawning(now: nat, es: seq<Event>) returns (fs: seq<Event>)
    ensures
      var w := Run(Run(Start(now), es), fs);
      && NoSpawner(w) && |w.handlers| == 10001 && w.now == Run(Start(now), es).now
      && w.handlers[10000].pc == Surplus && AllAttempting(w.handlers[..10000])
  {
    StartInv(now);
    RunKeepsInv(Start(now), es);
    fs := FinishSpawning(Run(Start(now), es));
    FinishedChain(Run(Run(Start(now), es), fs));
  }

  // ----- Conservation of the counters -----

  function CountStarted(hs: seq<Handler>): int {
    if hs == [] then 0 else CountStarted(hs[..|hs| - 1]) + Indicator(Started(hs[|hs| - 1]))
  }

  function CountBetween(hs: seq<Handler>): int {
    if hs == [] then 0 else CountBetween(hs[..|hs| - 1]) + Indicator(Between(hs[|hs| - 1]))
  }

  /** What holds of the contributions of n handlers, `started` of them started and `between` of them
      between the two updates of `connect`. */
  predicate Bounds(t: Counters, started: int, between: int, n: int) {
    && t.children + t.connectionActive == started + between
    && 0 <= t.connectionActive && 0 <= t.connectionErrors && 0 <= t.exchangeErrors
    && t.connectionErrors + t.exchangeErrors <= t.children <= n
    && t.connectionErrors + t.connectionActive <= started <= n
    && 0 <= t.connectionSum <= (t.children - t.connectionErrors) * CLIENT_TIMEOUT_MCS
    && 0 <= t.msgs && 0 <= t.latencySum <= t.msgs * CLIENT_TIMEOUT_MCS
  }

  lemma HandlerBounds(h: Handler)
    requires Accounted(h)
    ensures Bounds(h.mine, Indicator(Started(h)), Indicator(Between(h)), 1)
  {
  }

  lemma BoundsAdd(a: Counters, b: Counters, s: int, s': int, w: int, w': int, n: int, n': int)
    requires Bounds(a, s, w, n) && Bounds(b, s', w', n')
    ensures Bounds(Plus(a, b), s + s', w + w', n + n')
  {
  }

  lemma BoundsWith(a: Counters, s: int, w: int, n: int, h: Handler)
    requires Bounds(a, s, w, n) && Accounted(h)
    ensures Bounds(Plus(a, h.mine), s + Indicator(Started(h)), w + Indicator(Between(h)), n + 1)
  {
    HandlerBounds(h);
    BoundsAdd(a, h.mine, s, Indicator(Started(h)), w, Indicator(Between(h)), n, 1);
  }

  lemma NoBounds()
    ensures Bounds(ZERO, 0, 0, 0)
  {
  }

  lemma {:induction false} SumBounds(hs: seq<Handler>)
    requires forall i :: 0 <= i < |hs| ==> Accounted(hs[i])
    ensures Bounds(Sum(hs), CountStarted(hs), CountBetween(hs), |hs|)
  {
    if hs == [] {
      NoBounds();
    } else {
      var n := |hs| - 1;
      SumBounds(hs[..n]);
      BoundsWith(Sum(hs[..n]), CountStarted(hs[..n]), CountBetween(hs[..n]), n, hs[n]);
    }
  }

  /** Under every interleaving of the updates: children and active connections together are the
      handlers that have started connecting, where a handler between the two updates of `connect`
      counts twice; the active count is never taken below zero; each handler counts at most one
      error; and failed plus active connections are at most the started ones. */
  lemma CountersConserved(now: nat, es: seq<Event>)
    ensures
      var w := Run(Start(now), es);
      var t := w.total;
      && t.children + t.connectionActive == CountStarted(w.handlers) + CountBetween(w.handlers)
      && 0 <= t.connectionActive
      && 0 <= t.connectionErrors && 0 <= t.exchangeErrors
      && t.connectionErrors + t.exchangeErrors <= t.children <= CLIENTS_MAX
      && t.connectionErrors + t.connectionActive <= CountStarted(w.handlers)
  {
    StartInv(now);
    RunKeepsInv(Start(now), es);
    var w := Run(Start(now), es);
    SumBounds(w.handlers);
    assert forall i :: 0 <= i < |w.handlers| ==> Link(w.handlers, i);
    SurplusIsNoChild(w.handlers);
  }

  lemma {:induction false} SurplusIsNoChild(hs: seq<Handler>)
    requires |hs| <= CLIENTS_MAX + 1
    requires forall i :: 0 <= i < |hs| ==> Link(hs, i) && Accounted(hs[i])
    ensures Sum(hs).children <= CLIENTS_MAX
  {
    if |hs| == CLIENTS_MAX + 1 {
      var n := |hs| - 1;
      SumBounds(hs[..n]);
      assert Link(hs, n);
      assert hs[n].mine.children == 0;
    } else {
      SumBounds(hs);
    }
  }
}
