/** The load client's handler as the program writes it: an object whose callbacks update its own
    fields and the shared counters. Run without interruption, each callback is the run of the updates
    that LoadClient interleaves. */
module ConnectionHandler {
  import opened LoadClient

  /** The global counters. */
  class Globals {
    var servicesI: nat
    var children: int
    var connectionActive: int
    var connectionErrors: int
    var exchangeErrors: int
    var connectionSum: int
    var latencySum: int
    var msgs: int

    constructor ()
      ensures Value() == ZERO && servicesI == 0
    {
      servicesI := 0;
      children, connectionActive, connectionErrors, exchangeErrors := 0, 0, 0, 0;
      connectionSum, latencySum, msgs := 0, 0, 0;
    }

    function Value(): Counters
      reads this
    {
      Counters(children, connectionActive, connectionErrors, exchangeErrors, connectionSum, latencySum, msgs)
    }
  }

  // ----- What a callback amounts to -----

  function Add(h: Handler, d: Counters): Handler {
    h.(mine := Plus(h.mine, d))
  }

  function ConstructionGain(id: nat): Counters {
    if id >= CLIENTS_MAX then ZERO else ZERO.(connectionActive := 1)
  }

  const CHILD_GAIN := ZERO.(children := 1, connectionActive := -1)

  predicate ConnectFails(h: Handler, now: nat, failed: bool) {
    failed || Elapsed(h.connectStart, now) > CLIENT_TIMEOUT_MCS
  }

  /** What `connect` adds after it has counted the child. */
  function VerdictGain(h: Handler, now: nat, failed: bool): Counters {
    if ConnectFails(h, now, failed)
    then ZERO.(connectionErrors := 1)
    else ZERO.(connectionSum := Elapsed(h.connectStart, now))
  }

  function AfterVerdict(h: Handler, now: nat, failed: bool): Handler {
    var g := Add(h, VerdictGain(h, now, failed)).(pc := Idle);
    if ConnectFails(h, now, failed) then g.(errored := true) else Pushed(g, now)
  }

  function WriteGain(h: Handler, failed: bool): Counters {
    if failed && !h.errored then ZERO.(exchangeErrors := 1) else ZERO
  }

  function CompareGain(h: Handler, now: nat, same: bool): Counters {
    var g := Compared(h, now, same);
    if h.errored then ZERO
    else if g.pc.Answered? then ZERO.(msgs := 1, latencySum := g.pc.spent)
    else ZERO.(exchangeErrors := 1)
  }

  function AfterCompare(h: Handler, now: nat, same: bool): Handler {
    if h.errored then h
    else Add(Compared(h, now, same), CompareGain(h, now, same)).(pc := Idle)
  }

  const CONNECT_TAIL := [Next, Next, Next]

  lemma ChildRuns(h: Handler, now: nat, failed: bool)
    requires h.pc == Connecting
    ensures TurnAll(h, now, [ConnectDone(failed), Next]) == Add(h, CHILD_GAIN).(pc := CountedInactive(failed))
  {
    TurnsTwice(h, now, ConnectDone(failed), Next);
  }

  lemma VerdictRuns(h: Handler, now: nat, failed: bool)
    requires h.pc == CountedInactive(failed) && !h.errored
    ensures TurnAll(h, now, CONNECT_TAIL) == AfterVerdict(h, now, failed)
  {
    TurnsThrice(h, now, Next, Next, Next);
    NoGain(h.mine);
    var spent := Elapsed(h.connectStart, now);
    var h1 := Turn(h, now, Next);
    var h2 := Turn(h1, now, Next);
    NoGain(h2.mine);
    if ConnectFails(h, now, failed) {
      assert h1 == h.(errored := true, pc := ConnectFailing);
      assert h2 == Add(h, ZERO.(connectionErrors := 1)).(pc := Idle, errored := true);
    } else {
      assert h1 == h.(pc := Connected(spent));
      assert h2 == Add(h, ZERO.(connectionSum := spent)).(pc := Opening);
    }
  }

  lemma CompareRuns(h: Handler, now: nat, same: bool)
    requires h.pc == Idle && (same && !h.errored ==> h.tqueue != [])
    ensures TurnAll(h, now, [ReadDone(same), Next, Next]) == AfterCompare(h, now, same)
  {
    NoGain(h.mine);
    TurnsThrice(h, now, ReadDone(same), Next, Next);
    var g := Compared(h, now, same);
    if h.errored {
      assert Turn(h, now, ReadDone(same)) == h;
      assert Turn(h, now, Next) == h;
      return;
    }
    assert Turn(h, now, ReadDone(same)) == g;
    if g.pc == ExchangeFailing {
      var g1 := Add(g, ZERO.(exchangeErrors := 1)).(pc := Idle);
      assert Turn(g, now, Next) == g1;
      NoGain(g1.mine);
      assert Turn(g1, now, Next) == g1;
    } else {
      assert Turn(g, now, Next) == Add(g, ZERO.(msgs := 1)).(pc := CountedMessage(g.pc.spent));
    }
  }

  lemma WriteRuns(h: Handler, now: nat, failed: bool)
    requires h.pc == Idle
    ensures TurnAll(h, now, [WriteDone(failed), Next]) ==
      if failed && !h.errored
      then Add(h, ZERO.(exchangeErrors := 1)).(errored := true)
      else h
  {
    NoGain(h.mine);
    TurnsTwice(h, now, WriteDone(failed), Next);
    if failed && !h.errored {
      assert Turn(h, now, WriteDone(failed)) == h.(errored := true, pc := ExchangeFailing);
    } else {
      assert Turn(h, now, WriteDone(failed)) == h;
      assert Turn(h, now, Next) == h;
    }
  }

  lemma SendRuns(h: Handler, now: nat)
    requires h.pc == Idle
    ensures Turn(h, now, SendDue) == if h.errored then h else Pushed(h, now)
  {
    NoGain(h.mine);
  }

  function AfterConstruction(h: Handler, now: nat): Handler {
    var g := Add(h, ConstructionGain(h.id));
    if h.id >= CLIENTS_MAX then g.(pc := Surplus)
    else g.(pc := Connecting, bear := true, connectStart := now)
  }

  lemma ConstructRuns(h: Handler, now: nat)
    requires h.pc == Constructing
    ensures TurnAll(h, now, [Next, Next]) == AfterConstruction(h, now)
  {
    TurnsTwice(h, now, Next, Next);
    NoGain(h.mine);
    if h.id >= CLIENTS_MAX {
      assert Turn(h, now, Next) == h.(pc := Surplus);
    } else {
      assert Turn(h, now, Next) == h.(pc := Armed, bear := true);
    }
  }

  // ----- The program -----

  class Connection {
    const serviceId: nat
    var bear: bool
    var connectTimer: nat
    var errored: bool
    var tqueue: seq<nat>
    ghost var pc: Pc
    ghost var pushed: seq<nat>
    ghost var answered: seq<nat>
    ghost var mine: Counters

    ghost function State(): Handler
      reads this
    {
      Handler(serviceId, pc, bear, errored, connectTimer, tqueue, pushed, answered, mine)
    }

    /** The members' initialisers, with the id just taken. */
    constructor (id: nat)
      ensures State() == Fresh(id)
    {
      serviceId := id;
      bear, connectTimer, errored, tqueue := false, 0, false, [];
      pc, pushed, answered, mine := Constructing, [], [], ZERO;
    }

    /** The constructor's body: a handler beyond the limit does nothing. */
    method Begin(g: Globals, now: nat)
      requires State().pc == Constructing
      modifies this, g
      ensures State() == TurnAll(old(State()), now, [Next, Next])
      ensures g.Value() == Plus(old(g.Value()), ConstructionGain(serviceId))
      ensures g.servicesI == old(g.servicesI)
    {
      ConstructRuns(State(), now);
      NoGain(g.Value());
      mine := Plus(mine, ConstructionGain(serviceId));
      if serviceId >= CLIENTS_MAX {
        pc := Surplus;
        return;
      }
      bear := true;
      connectTimer := now;
      g.connectionActive := g.connectionActive + 1;
      pc := Connecting;
    }

    /** `new connection_handler` */
    static method Construct(g: Globals, now: nat) returns (c: Connection)
      modifies g
      ensures fresh(c)
      ensures g.servicesI == old(g.servicesI) + 1
      ensures c.State() == TurnAll(Fresh(old(g.servicesI)), now, [Next, Next])
      ensures g.Value() == Plus(old(g.Value()), ConstructionGain(old(g.servicesI)))
    {
      var id := g.servicesI;
      g.servicesI := id + 1;
      c := new Connection(id);
      c.Begin(g, now);
    }

    method Connect(g: Globals, failed: bool, now: nat)
      requires State().pc == Connecting && !errored && connectTimer <= now
      modifies this, g
      ensures State() == TurnAll(TurnAll(old(State()), now, [ConnectDone(failed), Next]), now, CONNECT_TAIL)
      ensures g.Value() == Plus(Plus(old(g.Value()), CHILD_GAIN), VerdictGain(old(State()), now, failed))
      ensures g.servicesI == old(g.servicesI)
    {
      ChildRuns(State(), now, failed);
      g.children := g.children + 1;
      g.connectionActive := g.connectionActive - 1;
      pc := CountedInactive(failed);
      mine := Plus(mine, CHILD_GAIN);
      Verdict(g, failed, now);
    }

    /** The rest of `connect`: an error, too late, or the first read and the first send. */
    method Verdict(g: Globals, failed: bool, now: nat)
      requires State().pc == CountedInactive(failed) && !errored && connectTimer <= now
      modifies this, g
      ensures State() == TurnAll(old(State()), now, CONNECT_TAIL)
      ensures g.Value() == Plus(old(g.Value()), VerdictGain(old(State()), now, failed))
      ensures g.servicesI == old(g.servicesI)
    {
      VerdictRuns(State(), now, failed);
      mine := Plus(mine, VerdictGain(State(), now, failed));
      pc := Idle;
      if failed {
        errored := true;
        g.connectionErrors := g.connectionErrors + 1;
        return;
      }
      var spentMcs := now - connectTimer;
      if spentMcs > CLIENT_TIMEOUT_MCS {
        errored := true;
        g.connectionErrors := g.connectionErrors + 1;
        return;
      }
      g.connectionSum := g.connectionSum + spentMcs;
      SendStaff(now);
    }

    method SendStaff(now: nat)
      requires State().pc == Idle
      modifies this`tqueue, this`pushed
      ensures State() == Turn(old(State()), now, SendDue)
    {
      SendRuns(State(), now);
      if errored {
        return;
      }
      tqueue := tqueue + [now];
      pushed := pushed + [now];
    }

    method Stub(g: Globals, failed: bool, now: nat)
      requires State().pc == Idle
      modifies this, g
      ensures State() == TurnAll(old(State()), now, [WriteDone(failed), Next])
      ensures g.Value() == Plus(old(g.Value()), WriteGain(old(State()), failed))
    {
      WriteRuns(State(), now, failed);
      NoGain(g.Value());
      mine := Plus(mine, WriteGain(State(), failed));
      if errored {
        return;
      }
      if failed {
        errored := true;
        g.exchangeErrors := g.exchangeErrors + 1;
      }
    }

    method CompareStaff(g: Globals, same: bool, now: nat)
      requires State().pc == Idle
      requires same && !errored ==> tqueue != [] && tqueue[0] <= now
      modifies this, g
      ensures State() == TurnAll(old(State()), now, [ReadDone(same), Next, Next])
      ensures g.Value() == Plus(old(g.Value()), CompareGain(old(State()), now, same))
    {
      CompareRuns(State(), now, same);
      NoGain(mine);
      NoGain(g.Value());
      mine := Plus(mine, CompareGain(State(), now, same));
      if errored {
        return;
      }
      if !same {
        errored := true;
        g.exchangeErrors := g.exchangeErrors + 1;
        return;
      }
      var spentMcs := now - tqueue[0];
      tqueue := tqueue[1..];
      answered := answered + [now];
      if spentMcs > CLIENT_TIMEOUT_MCS {
        errored := true;
        g.exchangeErrors := g.exchangeErrors + 1;
        return;
      }
      g.msgs := g.msgs + 1;
      g.latencySum := g.latencySum + spentMcs;
    }
  }
}
