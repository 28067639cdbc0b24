/** The Java server's hand-over of new channels: many threads offer registration requests, one worker
    takes them (IOScheduler.java). Each operation on the concurrent queue is one atomic step. */
module RegistrationQueue {

  /** `Missing` is the null that a non-blocking `accept` returns when there is nothing to accept. */
  datatype Channel = Client(id: nat) | Listener(id: nat) | Missing

  datatype Request = Request(producer: nat, interest: nat, channel: Channel)

  /** The worker's place in its loop; `Dead`: an exception has left `run` while it held `req`. */
  datatype Pc =
    | Selecting
    | Testing
    | Polling
    | Holding(req: Request)
    | Closing(req: Request)
    | Dead(req: Request)
    | PolledNothing

  datatype Settled = Settled(req: Request, registered: bool)

  /** History: `offered` in the order of the queue's offers, `settled` in the order of the worker. */
  datatype Scheduler = Scheduler(offered: seq<Request>, queue: seq<Request>, pc: Pc, settled: seq<Settled>)

  /** `Offer`: some thread calls `register`; `Work`: the worker's next step, where `ok` is the outcome
      of a registration. */
  datatype Event = Offer(req: Request) | Work(ok: bool)

  const INITIAL := Scheduler([], [], Selecting, [])

  function Worked(s: Scheduler, ok: bool): Scheduler {
    match s.pc
    case Selecting => s.(pc := Testing)
    case Testing => s.(pc := if s.queue == [] then Selecting else Polling)
    case Polling =>
      if s.queue == [] then s.(pc := PolledNothing)
      else s.(pc := Holding(s.queue[0]), queue := s.queue[1..])
    case Holding(req) =>
      if ok && req.channel != Missing
      then s.(pc := Testing, settled := s.settled + [Settled(req, true)])
      else s.(pc := Closing(req))
    case Closing(req) =>
      if req.channel == Missing then s.(pc := Dead(req))
      else s.(pc := Testing, settled := s.settled + [Settled(req, false)])
    case Dead(_) => s
    case PolledNothing => s
  }

  function Step(s: Scheduler, e: Event): Scheduler {
    match e
    case Offer(req) => s.(offered := s.offered + [req], queue := s.queue + [req])
    case Work(ok) => Worked(s, ok)
  }

  function Run(s: Scheduler, es: seq<Event>): Scheduler
    decreases |es|
  {
    if es == [] then s else Run(Step(s, es[0]), es[1..])
  }

  function Requests(done: seq<Settled>): (rs: seq<Request>)
    ensures |rs| == |done|
  {
    if done == [] then [] else Requests(done[..|done| - 1]) + [done[|done| - 1].req]
  }

  function InHand(pc: Pc): seq<Request> {
    if pc.Holding? || pc.Closing? || pc.Dead? then [pc.req] else []
  }

  /** Each request offered is in exactly one place, and the places are in the order of the offers:
      settled, in the worker's hand, or queued. The worker polls only a non-empty queue, and dies only
      over a missing channel. */
  ghost predicate Inv(s: Scheduler) {
    && s.offered == Requests(s.settled) + InHand(s.pc) + s.queue
    && (s.pc == Polling ==> s.queue != [])
    && s.pc != PolledNothing
    && (s.pc.Dead? ==> s.pc.req.channel == Missing)
    && (forall i :: 0 <= i < |s.settled| ==> s.settled[i].req.channel != Missing)
  }

  lemma StepKeepsInv(s: Scheduler, e: Event)
    requires Inv(s)
    ensures Inv(Step(s, e))
  {
    var t := Step(s, e);
    if |t.settled| > |s.settled| {
      assert t.settled[..|t.settled| - 1] == s.settled;
      assert t.offered == Requests(t.settled) + InHand(t.pc) + t.queue;
    }
  }

  lemma {:induction false} RunKeepsInv(s: Scheduler, es: seq<Event>)
    requires Inv(s)
    ensures Inv(Run(s, es))
    decreases |es|
  {
    if es != [] {
      StepKeepsInv(s, es[0]);
      RunKeepsInv(Step(s, es[0]), es[1..]);
    }
  }

  /** The requests offered in a run, in order. */
  function Offers(es: seq<Event>): seq<Request> {
    if es == [] then [] else (if es[0].Offer? then [es[0].req] else []) + Offers(es[1..])
  }

  lemma {:induction false} OffersArrive(s: Scheduler, es: seq<Event>)
    ensures Run(s, es).offered == s.offered + Offers(es)
    decreases |es|
  {
    if es != [] {
      OffersArrive(Step(s, es[0]), es[1..]);
    }
  }

  /** For every interleaving of the producers and the worker: no request is lost, duplicated or
      overtaken, and `poll` after a non-empty test never yields null. */
  lemma NoRequestLost(es: seq<Event>)
    ensures
      var s := Run(INITIAL, es);
      && Offers(es) == Requests(s.settled) + InHand(s.pc) + s.queue
      && s.pc != PolledNothing
  {
    RunKeepsInv(INITIAL, es);
    OffersArrive(INITIAL, es);
  }

  // ----- The outcomes of registrations -----

  /** The outcomes of the registrations that the worker attempts in a run. */
  function Attempts(s: Scheduler, es: seq<Event>): seq<bool>
    decreases |es|
  {
    if es == [] then [] else
    (if es[0].Work? && s.pc.Holding? then [es[0].ok] else []) + Attempts(Step(s, es[0]), es[1..])
  }

  /** The k-th request settled was registered exactly when the k-th attempt succeeded; while a request is
      being closed, the last attempt has failed, or there was no channel. */
  predicate Recorded(s: Scheduler, attempts: seq<bool>) {
    && |attempts| == |s.settled| + (if s.pc.Closing? || s.pc.Dead? then 1 else 0)
    && (forall k :: 0 <= k < |s.settled| ==> s.settled[k].registered == attempts[k])
    && (s.pc.Closing? && s.pc.req.channel != Missing ==> !attempts[|s.settled|])
  }

  lemma StepRecords(s: Scheduler, e: Event, attempts: seq<bool>)
    requires Recorded(s, attempts)
    ensures Recorded(Step(s, e), attempts + if e.Work? && s.pc.Holding? then [e.ok] else [])
  {
  }

  lemma {:induction false} RunRecords(s: Scheduler, es: seq<Event>, attempts: seq<bool>)
    requires Recorded(s, attempts)
    ensures Recorded(Run(s, es), attempts + Attempts(s, es))
    decreases |es|
  {
    if es == [] {
      assert attempts + [] == attempts;
    } else {
      var more := if es[0].Work? && s.pc.Holding? then [es[0].ok] else [];
      StepRecords(s, es[0], attempts);
      RunRecords(Step(s, es[0]), es[1..], attempts + more);
      assert (attempts + more) + Attempts(Step(s, es[0]), es[1..]) == attempts + Attempts(s, es);
    }
  }

  /** In every run a settled request is recorded as registered if and only if the attempt made while the
      worker held it succeeded. */
  lemma OutcomesRecorded(es: seq<Event>)
    ensures Recorded(Run(INITIAL, es), Attempts(INITIAL, es))
  {
    RunRecords(INITIAL, es, []);
    assert [] + Attempts(INITIAL, es) == Attempts(INITIAL, es);
  }

  /** A registration that fails, or has no channel, is followed by the attempt to close the channel, and
      only then, unless that channel is missing, does the worker go on. */
  lemma FailedIsClosed(s: Scheduler, ok: bool, next: bool)
    requires s.pc.Holding?
    ensures
      var t := Worked(s, ok);
      var u := Worked(t, next);
      if ok && s.pc.req.channel != Missing then
        t == s.(pc := Testing, settled := s.settled + [Settled(s.pc.req, true)])
      else
        && t == s.(pc := Closing(s.pc.req))
        && (if s.pc.req.channel == Missing then u == s.(pc := Dead(s.pc.req))
            else u == s.(pc := Testing, settled := s.settled + [Settled(s.pc.req, false)]))
  {
  }

  lemma {:induction false} RequestAt(done: seq<Settled>, k: nat)
    requires k < |done|
    ensures Requests(done)[k] == done[k].req
  {
    if k < |done| - 1 {
      RequestAt(done[..|done| - 1], k);
    }
  }

  /** One request without a channel stops the service: nothing from it on is ever settled. */
  lemma NothingSettledFromMissing(es: seq<Event>, k: nat)
    requires k < |Run(INITIAL, es).offered| && Run(INITIAL, es).offered[k].channel == Missing
    ensures |Run(INITIAL, es).settled| <= k
  {
    RunKeepsInv(INITIAL, es);
    var s := Run(INITIAL, es);
    if |s.settled| > k {
      RequestAt(s.settled, k);
      assert false;
    }
  }

  // ----- The worker left alone -----

  /** The worker's steps with no producer in between; `oks` are the outcomes of whatever registrations
      fall among them. */
  function Works(oks: seq<bool>): (es: seq<Event>)
    ensures |es| == |oks|
    ensures forall i :: 0 <= i < |oks| ==> es[i] == Work(oks[i])
  {
    seq(|oks|, i requires 0 <= i < |oks| => Work(oks[i]))
  }

  /** The number of steps in which the worker surely comes to the end of its queue: four for each request,
      whose registration may fail, and those for what it has in hand. */
  function Left(s: Scheduler): nat {
    var n := 4 * |s.queue|;
    match s.pc
    case Selecting => if n == 0 then 0 else n + 1
    case Testing => n
    case Polling => if n == 0 then 0 else n - 1
    case Holding(_) => n + 2
    case Closing(_) => n + 1
    case _ => 0
  }

  predicate AllHaveChannels(q: seq<Request>) {
    forall i :: 0 <= i < |q| ==> q[i].channel != Missing
  }

  function Unsettled(s: Scheduler): seq<Request> {
    InHand(s.pc) + s.queue
  }

  /** Nothing is in hand or queued, and what was offered has been settled in that order. */
  predicate SettledAll(s: Scheduler) {
    (s.pc == Testing || s.pc == Selecting) && s.queue == [] && Requests(s.settled) == s.offered
  }

  lemma WorkMakesProgress(s: Scheduler, ok: bool)
    requires Inv(s)
    ensures Left(Worked(s, ok)) <= if Left(s) == 0 then 0 else Left(s) - 1
  {
  }

  lemma WorkKeepsMissing(s: Scheduler, ok: bool)
    requires Inv(s)
    ensures AllHaveChannels(Unsettled(Worked(s, ok))) <==> AllHaveChannels(Unsettled(s))
  {
    var p, q := Unsettled(s), Unsettled(Worked(s, ok));
    if (s.pc.Holding? || s.pc.Closing?) && Worked(s, ok).pc == Testing {
      assert p == [s.pc.req] + q;
      assert forall i :: 0 <= i < |q| ==> q[i] == p[i + 1];
    } else {
      assert p == q;
    }
  }

  lemma NothingLeft(s: Scheduler)
    requires Inv(s) && Left(s) == 0
    ensures AllHaveChannels(Unsettled(s)) <==> SettledAll(s)
    ensures !AllHaveChannels(Unsettled(s)) <==> s.pc.Dead?
  {
    if s.pc.Dead? {
      assert Unsettled(s)[0] == s.pc.req;
    } else {
      assert Unsettled(s) == [];
    }
  }

  /** Left alone for long enough, with any of its registrations failing, the worker settles all that it
      has in hand or queued if and only if none of it lacks its channel; otherwise it dies. */
  lemma {:induction false} SettlesAllUnlessMissing(s: Scheduler, oks: seq<bool>)
    requires Inv(s) && |oks| >= Left(s)
    ensures
      var t := Run(s, Works(oks));
      && t.offered == s.offered
      && (AllHaveChannels(Unsettled(s)) <==> SettledAll(t))
      && (!AllHaveChannels(Unsettled(s)) <==> t.pc.Dead?)
    decreases |oks|
  {
    if oks == [] {
      NothingLeft(s);
    } else {
      var t := Worked(s, oks[0]);
      assert Works(oks)[1..] == Works(oks[1..]);
      StepKeepsInv(s, Work(oks[0]));
      WorkMakesProgress(s, oks[0]);
      WorkKeepsMissing(s, oks[0]);
      SettlesAllUnlessMissing(t, oks[1..]);
    }
  }

  /** A worker with nothing to settle keeps looking after its keys: every second step is a `select`, and
      after each of them it looks at its queue again. */
  lemma IdleWorkerSelects(s: Scheduler, oks: seq<bool>)
    requires SettledAll(s) && |oks| == 2
    ensures
      var half := Run(s, Works(oks[..1]));
      && {s.pc, half.pc} == {Selecting, Testing} && SettledAll(half)
      && Run(s, Works(oks)) == s
  {
    var t := Worked(s, oks[0]);
    assert Works(oks)[1..] == Works(oks[1..]);
    assert Works(oks[1..])[1..] == [] == Works(oks[..1])[1..];
    assert Run(s, Works(oks)) == Run(t, Works(oks[1..])) == Run(Worked(t, oks[1]), []);
    assert Run(s, Works(oks[..1])) == Run(t, []);
  }
}
