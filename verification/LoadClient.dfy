/** One connection of the load client (client.cc), cut at every update of a shared counter.

  A handler's callbacks run on one service thread, so they do not overlap each other; but the global
  counters are updated by all threads. A `Next` event is the next such update of the callback the
  handler is in; the other events start a callback. Times are microseconds of a monotone clock. */
module LoadClient {
  const CLIENTS_MAX: nat := 10000
  const CLIENT_TIMEOUT_MCS: nat := 30_000_000

  /** The shared statistics; also what one handler has contributed to them. */
  datatype Counters = Counters(
    children: int,
    connectionActive: int,
    connectionErrors: int,
    exchangeErrors: int,
    connectionSum: int,
    latencySum: int,
    msgs: int)

  const ZERO := Counters(0, 0, 0, 0, 0, 0, 0)

  function Plus(a: Counters, b: Counters): Counters {
    Counters(
      a.children + b.children,
      a.connectionActive + b.connectionActive,
      a.connectionErrors + b.connectionErrors,
      a.exchangeErrors + b.exchangeErrors,
      a.connectionSum + b.connectionSum,
      a.latencySum + b.latencySum,
      a.msgs + b.msgs)
  }

  /** Where a handler stands. `Idle` is between two callbacks, before and after an error; the names in
      between say which update was made last or what the callback has decided. */
  datatype Pc =
    | Constructing
    | Surplus
    | Armed
    | Connecting
    | CountedChild(failed: bool)
    | CountedInactive(failed: bool)
    | ConnectFailing
    | Connected(spent: nat)
    | Opening
    | Idle
    | Answered(spent: nat)
    | CountedMessage(spent: nat)
    | ExchangeFailing
    | Undefined

  /** `bear` is the pending timer that will construct the successor. `tqueue` holds the send times of
      the requests without an answer. History: `pushed` and `answered` are the times of all sends and
      of all accepted answers, `mine` what this handler has added to the statistics. */
  datatype Handler = Handler(
    id: nat,
    pc: Pc,
    bear: bool,
    errored: bool,
    connectStart: nat,
    tqueue: seq<nat>,
    pushed: seq<nat>,
    answered: seq<nat>,
    mine: Counters)

  /** `ReadDone(false)` is a read that failed, was short, or differs from what was sent. */
  datatype Local = Next | ConnectDone(failed: bool) | SendDue | WriteDone(failed: bool) | ReadDone(same: bool)

  datatype Move = Move(h: Handler, d: Counters)

  function Fresh(id: nat): Handler {
    Handler(id, Constructing, false, false, 0, [], [], [], ZERO)
  }

  function Elapsed(start: nat, now: nat): nat {
    if start <= now then now - start else 0
  }

  /** send_staff, past its guard. */
  function Pushed(h: Handler, now: nat): Handler {
    h.(tqueue := h.tqueue + [now], pushed := h.pushed + [now])
  }

  /** compare_staff, past its guard: an answer is charged to the oldest timer. `front` of an empty
      queue has no defined value. */
  function Compared(h: Handler, now: nat, same: bool): Handler {
    if !same then h.(errored := true, pc := ExchangeFailing)
    else if h.tqueue == [] then h.(pc := Undefined)
    else
      var spent := Elapsed(h.tqueue[0], now);
      var p := h.(tqueue := h.tqueue[1..], answered := h.answered + [now]);
      if spent > CLIENT_TIMEOUT_MCS
      then p.(errored := true, pc := ExchangeFailing)
      else p.(pc := Answered(spent))
  }

  /** The next update of the callback in progress. */
  function Continue(h: Handler, now: nat): Move {
    match h.pc
    case Constructing =>
      if h.id >= CLIENTS_MAX
      then Move(h.(pc := Surplus), ZERO)
      else Move(h.(pc := Armed, bear := true), ZERO)
    case Armed => Move(h.(pc := Connecting, connectStart := now), ZERO.(connectionActive := 1))
    case CountedChild(failed) => Move(h.(pc := CountedInactive(failed)), ZERO.(connectionActive := -1))
    case CountedInactive(failed) =>
      var spent := Elapsed(h.connectStart, now);
      if failed || spent > CLIENT_TIMEOUT_MCS
      then Move(h.(errored := true, pc := ConnectFailing), ZERO)
      else Move(h.(pc := Connected(spent)), ZERO)
    case ConnectFailing => Move(h.(pc := Idle), ZERO.(connectionErrors := 1))
    case Connected(spent) => Move(h.(pc := Opening), ZERO.(connectionSum := spent))
    case Opening => Move(Pushed(h, now).(pc := Idle), ZERO)
    case Answered(spent) => Move(h.(pc := CountedMessage(spent)), ZERO.(msgs := 1))
    case CountedMessage(spent) => Move(h.(pc := Idle), ZERO.(latencySum := spent))
    case ExchangeFailing => Move(h.(pc := Idle), ZERO.(exchangeErrors := 1))
    case _ => Move(h, ZERO)
  }

  /** One event of one handler. An event that cannot happen in the handler's state changes nothing. */
  function Micro(h: Handler, now: nat, ev: Local): Move {
    match ev
    case Next => Continue(h, now)
    case ConnectDone(failed) =>
      if h.pc == Connecting then Move(h.(pc := CountedChild(failed)), ZERO.(children := 1)) else Move(h, ZERO)
    case SendDue =>
      if h.pc == Idle && !h.errored then Move(Pushed(h, now), ZERO) else Move(h, ZERO)
    case WriteDone(failed) =>
      if h.pc == Idle && !h.errored && failed
      then Move(h.(errored := true, pc := ExchangeFailing), ZERO)
      else Move(h, ZERO)
    case ReadDone(same) =>
      if h.pc == Idle && !h.errored then Move(Compared(h, now, same), ZERO) else Move(h, ZERO)
  }

  function Turn(h: Handler, now: nat, ev: Local): Handler {
    var m := Micro(h, now, ev);
    m.h.(mine := Plus(h.mine, m.d))
  }

  /** Events of one handler in a row, at one moment. */
  function TurnAll(h: Handler, now: nat, evs: seq<Local>): Handler
    decreases |evs|
  {
    if evs == [] then h else TurnAll(Turn(h, now, evs[0]), now, evs[1..])
  }

  lemma {:induction false} TurnAllAppend(h: Handler, now: nat, a: seq<Local>, b: seq<Local>)
    ensures TurnAll(h, now, a + b) == TurnAll(TurnAll(h, now, a), now, b)
    decreases |a|
  {
    if a == [] {
      assert a + b == b;
    } else {
      assert (a + b)[1..] == a[1..] + b;
      TurnAllAppend(Turn(h, now, a[0]), now, a[1..], b);
    }
  }

  lemma TurnsTwice(h: Handler, now: nat, a: Local, b: Local)
    ensures TurnAll(h, now, [a, b]) == Turn(Turn(h, now, a), now, b)
  {
    assert [a, b][1..] == [b];
    assert [b][1..] == [];
    assert TurnAll(Turn(h, now, a), now, [b]) == TurnAll(Turn(Turn(h, now, a), now, b), now, []);
  }

  lemma TurnsThrice(h: Handler, now: nat, a: Local, b: Local, c: Local)
    ensures TurnAll(h, now, [a, b, c]) == Turn(Turn(Turn(h, now, a), now, b), now, c)
  {
    assert [a, b, c][1..] == [b, c];
    TurnsTwice(Turn(h, now, a), now, b, c);
  }

  lemma NoGain(c: Counters)
    ensures Plus(c, ZERO) == c
  {
  }

  // ----- What every event of a handler keeps -----

  predicate Attempting(h: Handler) {
    h.pc != Constructing && h.pc != Surplus
  }

  predicate Started(h: Handler) {
    Attempting(h) && h.pc != Armed
  }

  predicate Between(h: Handler) {
    h.pc.CountedChild?
  }

  function Indicator(b: bool): int {
    if b then 1 else 0
  }

  /** Latency measured but not yet added to the shared sum. */
  function Measured(h: Handler): nat {
    if h.pc.Answered? || h.pc.CountedMessage? then h.pc.spent else 0
  }

  /** The counts: a started handler is a child, or active, or for one moment both; it counts at most
      one error; and its sums are bounded by the timeout. */
  predicate Accounted(h: Handler) {
    var m := h.mine;
    && m.children == Indicator(Started(h) && h.pc != Connecting)
    && m.connectionActive == Indicator(h.pc == Connecting || Between(h))
    && 0 <= m.connectionErrors && 0 <= m.exchangeErrors
    && m.connectionErrors + m.exchangeErrors ==
         Indicator(h.errored && h.pc != ConnectFailing && h.pc != ExchangeFailing)
    && (h.pc.ExchangeFailing? || m.exchangeErrors == 1 ==> m.connectionErrors == 0)
    && (m.children == 0 || Between(h) || h.pc.CountedInactive? || h.pc == ConnectFailing || h.pc.Connected?
        ==> m.connectionSum == 0)
    && (h.pc.Connected? ==> h.pc.spent <= CLIENT_TIMEOUT_MCS)
    && 0 <= m.connectionSum <= (m.children - m.connectionErrors) * CLIENT_TIMEOUT_MCS
    && (m.connectionErrors == 1 || h.pc == ConnectFailing ==> m.connectionSum == 0)
    && (h.pc.Answered? || h.pc.CountedMessage? ==> h.pc.spent <= CLIENT_TIMEOUT_MCS)
    && 0 <= m.latencySum && 0 <= m.msgs
    && m.latencySum + (if h.pc.CountedMessage? then h.pc.spent else 0) <= m.msgs * CLIENT_TIMEOUT_MCS
    && (h.errored ==> h.pc == Idle || h.pc == ConnectFailing || h.pc == ExchangeFailing)
    && (h.pc == ConnectFailing || h.pc == ExchangeFailing ==> h.errored)
  }

  /** The waiting times of the answered requests, the k-th answer against the k-th send. */
  function Waits(pushed: seq<nat>, answered: seq<nat>): int
    requires |answered| <= |pushed|
  {
    if answered == [] then 0 else
    var k := |answered| - 1;
    Waits(pushed, answered[..k]) + answered[k] - pushed[k]
  }

  /** The timers: the queue holds exactly the sends without an answer, oldest first; and while there
      is no error the latency sum is the sum of the waiting times. */
  predicate Timed(h: Handler, now: nat) {
    && |h.answered| <= |h.pushed|
    && h.tqueue == h.pushed[|h.answered|..]
    && (forall t :: t in h.pushed ==> t <= now)
    && h.connectStart <= now
    && (!h.errored ==>
      && h.mine.latencySum + Measured(h) == Waits(h.pushed, h.answered)
      && h.mine.msgs + Indicator(h.pc.Answered?) == |h.answered|)
  }

  lemma NextKeepsAccounted(h: Handler, now: nat)
    requires Accounted(h)
    ensures Accounted(Turn(h, now, Next))
  {
  }

  lemma CallbackKeepsAccounted(h: Handler, now: nat, ev: Local)
    requires Accounted(h) && ev != Next
    ensures Accounted(Turn(h, now, ev))
  {
  }

  lemma TurnKeepsAccounted(h: Handler, now: nat, ev: Local)
    requires Accounted(h)
    ensures Accounted(Turn(h, now, ev))
  {
    if ev == Next {
      NextKeepsAccounted(h, now);
    } else {
      CallbackKeepsAccounted(h, now, ev);
    }
  }

  lemma {:induction false} WaitsOfLongerHistory(pushed: seq<nat>, t: nat, answered: seq<nat>)
    requires |answered| <= |pushed|
    ensures Waits(pushed + [t], answered) == Waits(pushed, answered)
  {
    if answered != [] {
      WaitsOfLongerHistory(pushed, t, answered[..|answered| - 1]);
    }
  }

  lemma PushedKeepsTimed(h: Handler, now: nat)
    requires Timed(h, now) && (h.pc == Opening || h.pc == Idle)
    ensures Timed(Pushed(h, now).(pc := Idle), now)
  {
    var g := Pushed(h, now);
    WaitsOfLongerHistory(h.pushed, now, h.answered);
    assert g.tqueue == g.pushed[|g.answered|..];
  }

  lemma ComparedKeepsTimed(h: Handler, now: nat, same: bool)
    requires Timed(h, now) && h.pc == Idle && !h.errored
    ensures Timed(Compared(h, now, same), now)
  {
    var g := Compared(h, now, same);
    if same && h.tqueue != [] {
      assert h.tqueue[0] == h.pushed[|h.answered|];
      assert g.answered[..|g.answered| - 1] == h.answered;
      assert g.tqueue == g.pushed[|g.answered|..];
      assert h.tqueue[0] in h.pushed;
      assert Waits(g.pushed, g.answered) == Waits(h.pushed, h.answered) + now - h.tqueue[0];
    }
  }

  predicate Quiet(h: Handler, g: Handler, now: nat) {
    && g.tqueue == h.tqueue && g.pushed == h.pushed && g.answered == h.answered
    && (g.connectStart == h.connectStart || g.connectStart == now)
    && (h.errored ==> g.errored)
    && (!g.errored ==>
      && g.mine.latencySum + Measured(g) == h.mine.latencySum + Measured(h)
      && g.mine.msgs + Indicator(g.pc.Answered?) == h.mine.msgs + Indicator(h.pc.Answered?))
  }

  predicate Pushes(h: Handler, ev: Local) {
    (h.pc == Opening && ev == Next) || (h.pc == Idle && !h.errored && ev == SendDue)
  }

  predicate Compares(h: Handler, ev: Local) {
    h.pc == Idle && !h.errored && ev.ReadDone?
  }

  lemma PushTurn(h: Handler, now: nat, ev: Local)
    requires Pushes(h, ev)
    ensures Turn(h, now, ev) == Pushed(h, now).(pc := Idle)
  {
  }

  lemma CompareTurn(h: Handler, now: nat, ev: Local)
    requires Compares(h, ev)
    ensures Turn(h, now, ev) == Compared(h, now, ev.same)
  {
    assert Plus(h.mine, ZERO) == h.mine;
  }

  lemma QuietTurn(h: Handler, now: nat, ev: Local)
    requires !Pushes(h, ev) && !Compares(h, ev)
    ensures Quiet(h, Turn(h, now, ev), now)
  {
  }

  /** Updates that touch neither the timers nor, on balance, the latency. */
  lemma QuietKeepsTimed(h: Handler, g: Handler, now: nat)
    requires Timed(h, now) && Quiet(h, g, now)
    ensures Timed(g, now)
  {
  }

  lemma TurnKeepsTimed(h: Handler, now: nat, ev: Local)
    requires Timed(h, now)
    ensures Timed(Turn(h, now, ev), now)
  {
    if Pushes(h, ev) {
      PushTurn(h, now, ev);
      PushedKeepsTimed(h, now);
    } else if Compares(h, ev) {
      CompareTurn(h, now, ev);
      ComparedKeepsTimed(h, now, ev.same);
    } else {
      QuietTurn(h, now, ev);
      QuietKeepsTimed(h, Turn(h, now, ev), now);
    }
  }

  lemma LaterKeepsTimed(h: Handler, now: nat, later: nat)
    requires Timed(h, now) && now <= later
    ensures Timed(h, later)
  {
  }

  // ----- What counts as an error -----

  /** The verdict on the connect: its error, or more than 30 seconds since it was started. */
  predicate FailingConnect(h: Handler, now: nat, ev: Local) {
    h.pc.CountedInactive? && ev == Next && (h.pc.failed || now - h.connectStart > 30_000_000)
  }

  /** A write or a read that failed, an answer that differs, or one that comes more than 30 seconds after
      the oldest request without an answer. */
  predicate FailingExchange(h: Handler, now: nat, ev: Local) {
    && h.pc == Idle
    && (ev == WriteDone(true) || ev == ReadDone(false)
        || (ev == ReadDone(true) && h.tqueue != [] && now - h.tqueue[0] > 30_000_000))
  }

  /** A handler fails on exactly these events. */
  lemma FailsExactly(h: Handler, now: nat, ev: Local)
    requires !h.errored && Timed(h, now)
    ensures Turn(h, now, ev).errored <==> FailingConnect(h, now, ev) || FailingExchange(h, now, ev)
  {
    if h.tqueue != [] {
      assert h.tqueue[0] in h.pushed;
    }
  }

  /** Its next update counts the one error, of the kind of the event. */
  lemma FailureIsCounted(h: Handler, now: nat, ev: Local, later: nat)
    requires !h.errored && Timed(h, now)
    ensures
      var g := Turn(h, now, ev);
      && (FailingConnect(h, now, ev) ==> CountsError(g, Turn(g, later, Next), 1, 0))
      && (FailingExchange(h, now, ev) ==> CountsError(g, Turn(g, later, Next), 0, 1))
  {
    if h.tqueue != [] {
      assert h.tqueue[0] in h.pushed;
    }
  }

  predicate CountsError(g: Handler, f: Handler, connection: nat, exchange: nat) {
    && f.pc == Idle && f.errored
    && f.mine == g.mine.(connectionErrors := g.mine.connectionErrors + connection,
                         exchangeErrors := g.mine.exchangeErrors + exchange)
  }

  /** Nothing that comes after its error is counted or sent. */
  lemma FailedIsSilent(h: Handler, now: nat, ev: Local)
    requires h.errored && h.pc == Idle
    ensures Turn(h, now, ev) == h
  {
    NoGain(h.mine);
  }
}
