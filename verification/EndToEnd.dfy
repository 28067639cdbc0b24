/** A load client connected to an echo server, of any of the designs, by two reliable byte streams
    that may be cut anywhere. Each request enters the outgoing stream as one piece. */
module EndToEnd {
  import opened Net
  import opened EchoSpec
  import opened LoadClient
  import opened Requests
  import Servers

  /** `toServer` and `toClient` are the bytes on the way, `readBuf` the part of the next answer that
      has come; `written` records all that the client has sent. */
  datatype Link = Link(
    h: Handler,
    now: nat,
    request: seq<byte>,
    written: seq<byte>,
    toServer: seq<byte>,
    server: Servers.Server,
    toClient: seq<byte>,
    readBuf: seq<byte>)

  /** `Client`: an event of the client other than a completed read; `Deliver`: up to n bytes reach the
      client's read; `Arrive`: up to n bytes on the way are offered to the server's read; `Kernel`:
      any other event at the server; `Pass`: time passes. */
  datatype LinkEvent =
    | Client(ev: Local)
    | Deliver(n: nat)
    | Arrive(n: nat, s: SendResult)
    | Kernel(e: Event)
    | Pass(d: nat)

  predicate Reading(l: Link) {
    l.h.pc == Idle && !l.h.errored
  }

  ghost function Served(l: Link, e: Event): Link
    requires Servers.Inv(l.server)
  {
    var t := Servers.Step(l.server, e);
    Servers.StepRefines(l.server, e);
    var taken := |Servers.Abs(t).received| - |Servers.Abs(l.server).received|;
    var emitted := Servers.Abs(t).sent[|Servers.Abs(l.server).sent|..];
    l.(server := t,
       toServer := if taken <= |l.toServer| then l.toServer[taken..] else [],
       toClient := l.toClient + emitted)
  }

  function ClientTurn(l: Link, ev: Local): Link {
    var h := Turn(l.h, l.now, ev);
    if |h.pushed| > |l.h.pushed|
    then l.(h := h, toServer := l.toServer + l.request, written := l.written + l.request)
    else l.(h := h)
  }

  /** async_read collects 32 bytes; then compare_staff runs. */
  function Delivered(l: Link, n: nat): Link
    requires |l.request| == REQUEST_SIZE && |l.readBuf| < REQUEST_SIZE
  {
    var m := Min(Min(n, |l.toClient|), REQUEST_SIZE - |l.readBuf|);
    var buf := l.readBuf + l.toClient[..m];
    var rest := l.(toClient := l.toClient[m..]);
    if |buf| < REQUEST_SIZE then rest.(readBuf := buf)
    else
      var same := StrncmpEqual(l.request, buf, REQUEST_SIZE);
      rest.(readBuf := [], h := Turn(l.h, l.now, ReadDone(same)))
  }

  ghost predicate Formed(l: Link) {
    && Servers.Inv(l.server)
    && |l.request| == REQUEST_SIZE
    && |l.readBuf| < REQUEST_SIZE
  }

  ghost function Step(l: Link, e: LinkEvent): (r: Link)
    requires Formed(l)
    ensures Formed(r)
  {
    match e
    case Client(ev) => if ev == ReadDone(true) then l else ClientTurn(l, ev)
    case Deliver(n) => if Reading(l) then Delivered(l, n) else l
    case Arrive(n, s) =>
      var offer := l.toServer[..Min(n, |l.toServer|)];
      if offer == [] then l else Served(l, Readable(Data(offer), s))
    case Kernel(k) => if k.Readable? && k.r.Data? then l else Served(l, k)
    case Pass(d) => l.(now := l.now + d)
  }

  ghost function Run(l: Link, es: seq<LinkEvent>): (r: Link)
    requires Formed(l)
    ensures Formed(r)
    decreases |es|
  {
    if es == [] then l else Run(Step(l, es[0]), es[1..])
  }

  /** The moment at which the connected client sends its first request. */
  ghost predicate Opened(l: Link) {
    && Formed(l) && Servers.New(l.server)
    && l.h.pc == Opening && !l.h.errored
    && l.h.tqueue == l.h.pushed == l.h.answered == []
    && l.h.mine.latencySum == 0 && l.h.mine.msgs == 0 && l.h.connectStart <= l.now
    && l.written == l.toServer == l.toClient == l.readBuf == []
  }

  // ----- The invariant -----

  /** Towards the server: what it has received, followed by what is on the way, is what the client has
      written, one request for each timer ever pushed. */
  ghost predicate Outbound(l: Link)
    requires Formed(l)
  {
    && l.written == Repeat(l.request, |l.h.pushed|)
    && l.written == Servers.Abs(l.server).received + l.toServer
  }

  /** Towards the client: what the server has sent is one request for each answer accepted, then the
      part of the next answer that has come, then what is on the way. */
  ghost predicate Inbound(l: Link)
    requires Formed(l)
  {
    Servers.Abs(l.server).sent == Repeat(l.request, |l.h.answered|) + l.readBuf + l.toClient
  }

  ghost predicate Inv(l: Link) {
    && Formed(l)
    && Timed(l.h, l.now)
    && l.h.pc != Undefined
    && Outbound(l)
    && (!l.h.errored ==> Inbound(l))
  }

  lemma OpenedInv(l: Link)
    requires Opened(l)
    ensures Inv(l)
  {
    Servers.NewIsInitial(l.server);
  }

  /** In every state the next 32 bytes the client reads are its request, and some timer is waiting
      for them. */
  lemma NextAnswer(l: Link)
    requires Inv(l) && !l.h.errored
    requires |l.readBuf| + |l.toClient| >= REQUEST_SIZE
    ensures (l.readBuf + l.toClient)[..REQUEST_SIZE] == l.request
    ensures l.h.tqueue != [] && l.h.tqueue[0] == l.h.pushed[|l.h.answered|]
  {
    var a := Servers.Abs(l.server);
    var j, k := |l.h.answered|, |l.h.pushed|;
    Servers.StepRefines(l.server, Expire);
    assert |a.sent| <= |l.written|;
    assert j * REQUEST_SIZE + REQUEST_SIZE <= k * REQUEST_SIZE;
    assert j < k;
    RepeatAt(l.request, k, j);
    var i := j * REQUEST_SIZE;
    assert a.sent[i..] == l.readBuf + l.toClient;
    assert (l.readBuf + l.toClient)[..REQUEST_SIZE] == a.sent[i..i + REQUEST_SIZE];
    assert a.sent[i..i + REQUEST_SIZE] == l.written[i..i + REQUEST_SIZE];
  }

  lemma WireMoves(written: seq<byte>, before: seq<byte>, after: seq<byte>, wire: seq<byte>, offer: seq<byte>)
    requires written == before + wire && offer <= wire
    requires before <= after <= before + offer
    ensures |after| - |before| <= |wire|
    ensures written == after + wire[|after| - |before|..]
  {
    var taken := |after| - |before|;
    assert after == before + wire[..taken];
    assert wire == wire[..taken] + wire[taken..];
  }

  lemma OutputMoves(before: seq<byte>, after: seq<byte>, head: seq<byte>, wire: seq<byte>)
    requires before == head + wire && before <= after
    ensures after == head + (wire + after[|before|..])
  {
    assert after == before + after[|before|..];
  }

  lemma ServedTakes(l: Link, e: Event)
    requires Formed(l) && Servers.Offer(e) <= l.toServer
    ensures
      var before, r := Servers.Abs(l.server).received, Served(l, e);
      var after := Servers.Abs(r.server).received;
      && before <= after <= before + Servers.Offer(e) && |after| - |before| <= |l.toServer|
      && r.toServer == l.toServer[|after| - |before|..]
      && r.written == l.written && r.h == l.h && r.request == l.request
  {
    Servers.StepRefines(l.server, e);
    Servers.ReceivesOnlyOffered(l.server, e);
  }

  lemma OutboundAfter(l: Link, r: Link, offer: seq<byte>)
    requires Formed(l) && Formed(r) && Outbound(l) && offer <= l.toServer
    requires r.written == l.written && r.h == l.h && r.request == l.request
    requires
      var before, after := Servers.Abs(l.server).received, Servers.Abs(r.server).received;
      && before <= after <= before + offer && |after| - |before| <= |l.toServer|
      && r.toServer == l.toServer[|after| - |before|..]
    ensures Outbound(r)
  {
    WireMoves(l.written, Servers.Abs(l.server).received, Servers.Abs(r.server).received, l.toServer, offer);
  }

  lemma ServedKeepsOutbound(l: Link, e: Event)
    requires Formed(l) && Outbound(l) && Servers.Offer(e) <= l.toServer
    ensures Outbound(Served(l, e))
  {
    ServedTakes(l, e);
    OutboundAfter(l, Served(l, e), Servers.Offer(e));
  }

  lemma ServedKeepsInbound(l: Link, e: Event)
    requires Formed(l) && Inbound(l)
    ensures Inbound(Served(l, e))
  {
    Servers.StepRefines(l.server, e);
    var a, b := Servers.Abs(l.server), Servers.Abs(Servers.Step(l.server, e));
    OutputMoves(a.sent, b.sent, Repeat(l.request, |l.h.answered|) + l.readBuf, l.toClient);
  }

  lemma ServedKeepsInv(l: Link, e: Event)
    requires Inv(l) && Servers.Offer(e) <= l.toServer
    ensures Inv(Served(l, e))
  {
    ServedKeepsOutbound(l, e);
    if !l.h.errored {
      ServedKeepsInbound(l, e);
    }
  }

  lemma ClientTurnKeepsInv(l: Link, ev: Local)
    requires Inv(l) && ev != ReadDone(true)
    ensures Inv(ClientTurn(l, ev))
  {
    TurnKeepsTimed(l.h, l.now, ev);
    TurnFacts(l.h, l.now, ev);
    var r := ClientTurn(l, ev);
    assert r.written == Repeat(l.request, |r.h.pushed|);
    assert l.written + l.request == Servers.Abs(l.server).received + (l.toServer + l.request);
  }

  lemma TurnFacts(h: Handler, now: nat, ev: Local)
    ensures h.errored ==> Turn(h, now, ev).errored
    ensures ev != ReadDone(true) ==>
      && Turn(h, now, ev).answered == h.answered
      && (|Turn(h, now, ev).pushed| == |h.pushed| || |Turn(h, now, ev).pushed| == |h.pushed| + 1)
      && (h.pc != Undefined ==> Turn(h, now, ev).pc != Undefined)
  {
  }

  predicate Completes(l: Link, n: nat)
    requires |l.readBuf| < REQUEST_SIZE
  {
    Reading(l) && |l.readBuf| + Min(n, |l.toClient|) >= REQUEST_SIZE
  }

  /** From l to d a read completes: its 32 bytes are the request, and it is charged to the timer of the
      send with the same number; the error flag is set only if that timer has run out. */
  predicate AnswerAccepted(l: Link, d: Link)
    requires |l.readBuf| < REQUEST_SIZE
  {
    var k := |l.h.answered|;
    var m := REQUEST_SIZE - |l.readBuf|;
    && m <= |l.toClient| && l.readBuf + l.toClient[..m] == l.request
    && d.toClient == l.toClient[m..] && d.readBuf == []
    && k < |l.h.pushed| && l.h.pushed[k] <= l.now
    && l.h.tqueue == [l.h.pushed[k]] + d.h.tqueue
    && d.h.pushed == l.h.pushed && d.h.answered == l.h.answered + [l.now]
    && (d.h.errored <==> l.now - l.h.pushed[k] > CLIENT_TIMEOUT_MCS)
  }

  /** The 32 bytes of a completed read are the request, so the comparison accepts them. */
  lemma CompletedReadIs(l: Link, n: nat)
    requires Inv(l) && Completes(l, n)
    ensures
      var m := REQUEST_SIZE - |l.readBuf|;
      && m <= |l.toClient| && l.readBuf + l.toClient[..m] == l.request
      && Delivered(l, n) == l.(h := Compared(l.h, l.now, true), readBuf := [], toClient := l.toClient[m..])
  {
    NextAnswer(l);
    var m := REQUEST_SIZE - |l.readBuf|;
    var buf := l.readBuf + l.toClient[..m];
    assert buf == (l.readBuf + l.toClient)[..REQUEST_SIZE];
    EqualPassesStrncmp(l.request, REQUEST_SIZE);
    CompareTurn(l.h, l.now, ReadDone(true));
  }

  lemma CompletedRead(l: Link, n: nat)
    requires Inv(l) && Completes(l, n)
    ensures AnswerAccepted(l, Delivered(l, n))
    ensures Delivered(l, n) == l.(h := Compared(l.h, l.now, true), readBuf := [],
                                  toClient := l.toClient[REQUEST_SIZE - |l.readBuf|..])
    ensures Delivered(l, n).h.pc == ExchangeFailing || Delivered(l, n).h.pc.Answered?
  {
    NextAnswer(l);
    CompletedReadIs(l, n);
    assert l.h.tqueue[0] in l.h.pushed;
  }

  /** Two ways to split one stream of answers. */
  lemma SplitsAgree(sent: seq<byte>, head: seq<byte>, a: seq<byte>, b: seq<byte>, c: seq<byte>, d: seq<byte>)
    requires sent == head + a + b && a + b == c + d
    ensures sent == head + c + d
  {
    assert head + a + b == head + (a + b);
    assert head + c + d == head + (c + d);
  }

  lemma PartialReadKeepsInv(l: Link, n: nat)
    requires Inv(l) && Reading(l) && !Completes(l, n)
    ensures Inv(Delivered(l, n))
  {
    var r := Delivered(l, n);
    SplitsAgree(Servers.Abs(l.server).sent, Repeat(l.request, |l.h.answered|),
                l.readBuf, l.toClient, r.readBuf, r.toClient);
  }

  lemma CompletedReadKeepsInv(l: Link, n: nat)
    requires Inv(l) && Completes(l, n)
    ensures Inv(Delivered(l, n))
  {
    var r := Delivered(l, n);
    CompletedRead(l, n);
    ComparedKeepsTimed(l.h, l.now, true);
    var m := REQUEST_SIZE - |l.readBuf|;
    assert l.readBuf + l.toClient == l.request + l.toClient[m..] by {
      assert l.toClient == l.toClient[..m] + l.toClient[m..];
    }
    SplitsAgree(Servers.Abs(l.server).sent, Repeat(l.request, |l.h.answered|),
                l.readBuf, l.toClient, l.request, r.toClient);
    assert Repeat(l.request, |r.h.answered|) == Repeat(l.request, |l.h.answered|) + l.request;
    assert Servers.Abs(l.server).sent == Repeat(l.request, |r.h.answered|) + r.readBuf + r.toClient;
  }

  lemma DeliveredKeepsInv(l: Link, n: nat)
    requires Inv(l) && Reading(l)
    ensures Inv(Delivered(l, n))
  {
    if Completes(l, n) {
      CompletedReadKeepsInv(l, n);
    } else {
      PartialReadKeepsInv(l, n);
    }
  }

  lemma StepKeepsInv(l: Link, e: LinkEvent)
    requires Inv(l)
    ensures Inv(Step(l, e))
  {
    match e
    case Client(ev) =>
      if ev != ReadDone(true) {
        ClientTurnKeepsInv(l, ev);
      }
    case Deliver(n) =>
      if Reading(l) {
        DeliveredKeepsInv(l, n);
      }
    case Arrive(n, s) =>
      ServedKeepsInv(l, Readable(Data(l.toServer[..Min(n, |l.toServer|)]), s));
    case Kernel(k) =>
      if !(k.Readable? && k.r.Data?) {
        ServedKeepsInv(l, k);
      }
    case Pass(d) =>
      LaterKeepsTimed(l.h, l.now, l.now + d);
  }

  lemma {:induction false} RunKeepsInv(l: Link, es: seq<LinkEvent>)
    requires Inv(l)
    ensures Inv(Run(l, es))
    decreases |es|
  {
    if es != [] {
      StepKeepsInv(l, es[0]);
      RunKeepsInv(Step(l, es[0]), es[1..]);
    }
  }

  /** End to end, for every server, every fragmentation and every timing: whenever a read of the client
      completes, the 32 bytes are exactly its request, a timer is queued, and the k-th completed read
      pops the timer of the k-th send. The client therefore never reports a wrong answer: at a
      completed read its error flag is set only by the timeout. */
  lemma AnswersMatchRequests(l: Link, es: seq<LinkEvent>, n: nat)
    requires Opened(l)
    ensures
      var r := Run(l, es);
      && r.h.pc != Undefined && r.request == l.request
      && (Completes(r, n) ==> AnswerAccepted(r, Step(r, Deliver(n))))
  {
    OpenedInv(l);
    RunKeepsInv(l, es);
    RunKeepsRequest(l, es);
    var r := Run(l, es);
    if Completes(r, n) {
      CompletedRead(r, n);
    }
  }

  lemma {:induction false} RunKeepsRequest(l: Link, es: seq<LinkEvent>)
    requires Formed(l)
    ensures Run(l, es).request == l.request
    decreases |es|
  {
    if es != [] {
      RunKeepsRequest(Step(l, es[0]), es[1..]);
    }
  }

  // ----- Time -----

  /** The time that passes in a run. */
  function Passed(es: seq<LinkEvent>): nat {
    if es == [] then 0 else (if es[0].Pass? then es[0].d else 0) + Passed(es[1..])
  }

  lemma RunOne(l: Link, e: LinkEvent)
    requires Formed(l)
    ensures Run(l, [e]) == Step(l, e)
  {
    assert [e][1..] == [];
  }

  lemma {:induction false} RunAppend(l: Link, es: seq<LinkEvent>, fs: seq<LinkEvent>)
    requires Formed(l)
    ensures Run(l, es + fs) == Run(Run(l, es), fs)
    decreases |es|
  {
    if es == [] {
      assert es + fs == fs;
    } else {
      assert (es + fs)[1..] == es[1..] + fs;
      RunAppend(Step(l, es[0]), es[1..], fs);
    }
  }

  lemma {:induction false} ClockFollows(l: Link, es: seq<LinkEvent>)
    requires Formed(l)
    ensures Run(l, es).now == l.now + Passed(es)
    decreases |es|
  {
    if es != [] {
      ClockFollows(Step(l, es[0]), es[1..]);
    }
  }

  lemma StepKeepsSends(l: Link, e: LinkEvent)
    requires Formed(l)
    ensures l.h.pushed <= Step(l, e).h.pushed
    ensures |Step(l, e).h.pushed| > |l.h.pushed| ==> Step(l, e).h.pushed == l.h.pushed + [l.now]
  {
    TurnKeepsSends(l.h, l.now, if e.Client? then e.ev else ReadDone(true));
    TurnKeepsSends(l.h, l.now, ReadDone(false));
  }

  lemma TurnKeepsSends(h: Handler, now: nat, ev: Local)
    ensures Turn(h, now, ev).pushed == h.pushed || Turn(h, now, ev).pushed == h.pushed + [now]
  {
  }

  lemma {:induction false} RunKeepsSends(l: Link, es: seq<LinkEvent>)
    requires Formed(l)
    ensures l.h.pushed <= Run(l, es).h.pushed
    decreases |es|
  {
    if es != [] {
      var m := Step(l, es[0]);
      StepKeepsSends(l, es[0]);
      RunKeepsSends(m, es[1..]);
      assert m.h.pushed <= Run(l, es).h.pushed;
    }
  }

  /** The event e sends the request number k. */
  ghost predicate Sends(l: Link, e: LinkEvent, k: nat)
    requires Formed(l)
  {
    |l.h.pushed| == k && |Step(l, e).h.pushed| == k + 1
  }

  /** The request number k, once sent, stays the one sent at that moment. */
  lemma SentThen(m: Link, send: LinkEvent, between: seq<LinkEvent>, k: nat)
    requires Formed(m) && Sends(m, send, k)
    ensures
      var r := Run(Step(m, send), between);
      |r.h.pushed| > k && r.now - r.h.pushed[k] == Passed(between)
  {
    var sent := Step(m, send);
    StepKeepsSends(m, send);
    SendTakesNoTime(m, send);
    RunKeepsSends(sent, between);
    ClockFollows(sent, between);
    assert Run(sent, between).h.pushed[k] == sent.h.pushed[k];
  }

  lemma RunThrough(l: Link, before: seq<LinkEvent>, send: LinkEvent, between: seq<LinkEvent>)
    requires Formed(l)
    ensures Run(l, before + [send] + between) == Run(Step(Run(l, before), send), between)
  {
    RunOne(Run(l, before), send);
    RunAppend(l, before, [send]);
    RunAppend(l, before + [send], between);
  }

  lemma CompletedReadTakes(r: Link, n: nat)
    requires Inv(r) && Completes(r, n)
    ensures
      var d := Delivered(r, n);
      var k := |r.h.answered|;
      && k < |r.h.pushed| && r.h.pushed[k] <= r.now
      && (d.h.errored <==> r.now - r.h.pushed[k] > CLIENT_TIMEOUT_MCS)
      && (!d.h.errored ==> d.h.pc == Answered(r.now - r.h.pushed[k]))
  {
    CompletedRead(r, n);
  }

  /** After any run `before`, the event `send` sends the request number k, and after any further run
      `between` the read number k completes. Then the time that passed in `between`, and no other, is what
      the answer took: the client fails if and only if that exceeds 30 seconds, and else is about to
      count it. */
  lemma AnswerTakesPassedTime(
    l: Link, before: seq<LinkEvent>, send: LinkEvent, between: seq<LinkEvent>, n: nat, k: nat)
    requires Opened(l) && Sends(Run(l, before), send, k)
    requires
      var r := Run(l, before + [send] + between);
      Completes(r, n) && |r.h.answered| == k
    ensures
      var d := Step(Run(l, before + [send] + between), Deliver(n));
      && (d.h.errored <==> Passed(between) > 30_000_000)
      && (!d.h.errored ==> d.h.pc == Answered(Passed(between)))
  {
    RunThrough(l, before, send, between);
    SentThen(Run(l, before), send, between, k);
    OpenedInv(l);
    RunKeepsInv(l, before + [send] + between);
    CompletedReadTakes(Run(l, before + [send] + between), n);
  }

  lemma SendTakesNoTime(l: Link, e: LinkEvent)
    requires Formed(l) && |Step(l, e).h.pushed| > |l.h.pushed|
    ensures Step(l, e).now == l.now
  {
  }

  /** Two updates later the answer has added just its time to the sum, and one message. */
  lemma AnswerCountsItsTime(h: Handler, now: nat, spent: nat)
    requires h.pc == Answered(spent)
    ensures
      var g := Turn(Turn(h, now, Next), now, Next);
      && g.pc == Idle && g.mine == h.mine.(msgs := h.mine.msgs + 1, latencySum := h.mine.latencySum + spent)
  {
  }

  /** Nothing on the way, nothing held, nothing half read: then every request has its answer, no timer
      is left, and the latency sum is the sum of the waiting times. */
  lemma QuietMeansAnswered(l: Link, es: seq<LinkEvent>)
    requires Opened(l)
    ensures
      var r := Run(l, es);
      (Reading(r) && r.toServer == r.toClient == r.readBuf == [] && Servers.Abs(r.server).queue == [] ==>
        && |r.h.answered| == |r.h.pushed| && r.h.tqueue == []
        && r.h.mine.msgs == |r.h.pushed|
        && r.h.mine.latencySum == Waits(r.h.pushed, r.h.answered))
  {
    OpenedInv(l);
    RunKeepsInv(l, es);
    var r := Run(l, es);
    Servers.StepRefines(r.server, Expire);
    if Reading(r) && r.toServer == r.toClient == r.readBuf == [] && Servers.Abs(r.server).queue == [] {
      assert |r.h.answered| * REQUEST_SIZE == |r.h.pushed| * REQUEST_SIZE;
    }
  }

  // ----- The two sides of a run -----

  /** The events that reach the server. A read is offered the head of what is on the way to it. */
  ghost function ServerSide(l: Link, es: seq<LinkEvent>): seq<Event>
    requires Formed(l)
    decreases |es|
  {
    if es == [] then [] else
    (match es[0]
     case Arrive(n, s) =>
       if n == 0 || l.toServer == [] then [] else [Readable(Data(Taken(l.toServer, n)), s)]
     case Kernel(k) => if k.Readable? && k.r.Data? then [] else [k]
     case _ => [])
    + ServerSide(Step(l, es[0]), es[1..])
  }

  lemma {:induction false} ServersAppend(s: Servers.Server, es: seq<Event>, fs: seq<Event>)
    requires Servers.Inv(s)
    ensures Servers.Run(s, es + fs) == Servers.Run(Servers.Run(s, es), fs)
    decreases |es|
  {
    if es == [] {
      assert es + fs == fs;
    } else {
      assert (es + fs)[1..] == es[1..] + fs;
      ServersAppend(Servers.Step(s, es[0]), es[1..], fs);
    }
  }

  lemma ServedOnce(s: Servers.Server, e: Event)
    requires Servers.Inv(s)
    ensures Servers.Run(s, [e]) == Servers.Step(s, e)
  {
    assert [e][1..] == [];
  }

  lemma ServerStep(l: Link, e: LinkEvent, now: seq<Event>)
    requires Formed(l)
    requires now ==
      match e
      case Arrive(n, s) =>
        if n == 0 || l.toServer == [] then [] else [Readable(Data(Taken(l.toServer, n)), s)]
      case Kernel(k) => if k.Readable? && k.r.Data? then [] else [k]
      case _ => []
    ensures Step(l, e).server == Servers.Run(l.server, now)
  {
    if e.Arrive? {
      ServedOnce(l.server, Readable(Data(Taken(l.toServer, e.n)), e.s));
    } else if e.Kernel? {
      ServedOnce(l.server, e.e);
    }
  }

  /** The server's side of every run of the composed system is a run of the server alone. */
  lemma {:induction false} ServerRuns(l: Link, es: seq<LinkEvent>)
    requires Formed(l)
    ensures Run(l, es).server == Servers.Run(l.server, ServerSide(l, es))
    decreases |es|
  {
    if es != [] {
      var m := Step(l, es[0]);
      var now := ServerSide(l, es)[..|ServerSide(l, es)| - |ServerSide(m, es[1..])|];
      ServerStep(l, es[0], now);
      ServerRuns(m, es[1..]);
      ServersAppend(l.server, now, ServerSide(m, es[1..]));
      assert ServerSide(l, es) == now + ServerSide(m, es[1..]);
    }
  }

  datatype Moment = Moment(now: nat, ev: Local)

  function Turns(h: Handler, ms: seq<Moment>): Handler
    decreases |ms|
  {
    if ms == [] then h else Turns(Turn(h, ms[0].now, ms[0].ev), ms[1..])
  }

  /** What happens at the client, and when. Every read that completes brings the right answer. */
  ghost function ClientSide(l: Link, es: seq<LinkEvent>): seq<Moment>
    requires Formed(l)
    decreases |es|
  {
    if es == [] then [] else
    (match es[0]
     case Client(ev) => if ev == ReadDone(true) then [] else [Moment(l.now, ev)]
     case Deliver(n) => if Completes(l, n) then [Moment(l.now, ReadDone(true))] else []
     case _ => [])
    + ClientSide(Step(l, es[0]), es[1..])
  }

  lemma ClientStep(l: Link, e: LinkEvent)
    requires Inv(l)
    ensures Step(l, e).h ==
      if e.Client? && e.ev != ReadDone(true) then Turn(l.h, l.now, e.ev)
      else if e.Deliver? && Completes(l, e.n) then Turn(l.h, l.now, ReadDone(true))
      else l.h
  {
    if e.Deliver? && Completes(l, e.n) {
      CompletedReadIs(l, e.n);
      CompareTurn(l.h, l.now, ReadDone(true));
    }
  }

  /** The client's side of every run of the composed system is a run of the handler, with right answers. */
  lemma {:induction false} ClientRuns(l: Link, es: seq<LinkEvent>)
    requires Inv(l)
    ensures Run(l, es).h == Turns(l.h, ClientSide(l, es))
    decreases |es|
  {
    if es != [] {
      ClientStep(l, es[0]);
      StepKeepsInv(l, es[0]);
      ClientRuns(Step(l, es[0]), es[1..]);
      var rest := ClientSide(Step(l, es[0]), es[1..]);
      if |ClientSide(l, es)| > |rest| {
        assert ClientSide(l, es)[1..] == rest;
      } else {
        assert ClientSide(l, es) == rest;
      }
    }
  }

  // ----- Progress -----

  ghost predicate Drained(l: Link)
    requires Formed(l)
  {
    l.toServer == l.toClient == l.readBuf == [] && Servers.Abs(l.server).queue == []
  }

  /** No queued timer has run out yet. */
  predicate InTime(l: Link) {
    forall t :: t in l.h.tqueue ==> Elapsed(t, l.now) <= CLIENT_TIMEOUT_MCS
  }

  ghost predicate Alive(l: Link) {
    Inv(l) && Reading(l) && InTime(l) && Servers.Abs(l.server).open
  }

  /** Bytes that have still to move, weighted by how far they have to go. */
  ghost function Work(l: Link): nat
    requires Formed(l)
  {
    3 * |l.toServer| + 2 * |Servers.Abs(l.server).queue| + |l.toClient|
  }

  /** The server's socket accepts everything: all it holds moves on its way to the client. */
  lemma FlushStep(l: Link)
    requires Alive(l)
    ensures
      var r := Step(l, Kernel(Servers.Flush(l.server)));
      && Alive(r) && r.now == l.now && r.h == l.h
      && r.toServer == l.toServer && r.readBuf == l.readBuf
      && Servers.Abs(r.server).queue == [] && Servers.ReadyToRead(r.server)
      && Work(r) + |Servers.Abs(l.server).queue| == Work(l)
  {
    var e := Servers.Flush(l.server);
    StepKeepsInv(l, Kernel(e));
    Servers.FlushSendsAll(l.server);
    Servers.StepRefines(l.server, e);
    assert Step(l, Kernel(e)) == Served(l, e);
  }

  /** A server that is ready to read takes some of what is on the way to it. */
  lemma ArriveStep(l: Link)
    requires Alive(l) && l.toServer != []
    requires Servers.ReadyToRead(l.server) && Servers.Abs(l.server).queue == []
    ensures
      var r := Step(l, Arrive(|l.toServer|, SendAgain));
      && Alive(r) && r.now == l.now && r.h == l.h && Work(r) < Work(l)
  {
    var e := Readable(Data(l.toServer), SendAgain);
    assert l.toServer[..Min(|l.toServer|, |l.toServer|)] == l.toServer;
    StepKeepsInv(l, Arrive(|l.toServer|, SendAgain));
    Servers.ReadTakes(l.server, l.toServer);
    Servers.StepRefines(l.server, e);
    var r := Step(l, Arrive(|l.toServer|, SendAgain));
    assert r == Served(l, e);
    assert r.toClient == l.toClient;
    var a, b := Servers.Abs(l.server), Servers.Abs(r.server);
    assert |b.queue| == |b.received| - |b.sent|;
  }

  lemma RunThree(l: Link, a: LinkEvent, b: LinkEvent, c: LinkEvent)
    requires Formed(l)
    ensures Run(l, [a, b, c]) == Step(Step(Step(l, a), b), c)
  {
    RunOne(Step(Step(l, a), b), c);
    assert [b, c][1..] == [c];
    assert Run(Step(l, a), [b, c]) == Run(Step(Step(l, a), b), [c]);
    assert [a, b, c][1..] == [b, c];
  }

  lemma PartialRead(l: Link)
    requires Alive(l) && l.toClient != [] && !Completes(l, REQUEST_SIZE)
    ensures
      var r := Delivered(l, REQUEST_SIZE);
      Alive(r) && r.now == l.now && r.h == l.h && Work(r) < Work(l)
  {
    PartialReadKeepsInv(l, REQUEST_SIZE);
  }

  lemma FullRead(l: Link)
    requires Alive(l) && Completes(l, REQUEST_SIZE)
    ensures
      var r := Delivered(l, REQUEST_SIZE);
      && Inv(r) && r.h.pc.Answered? && !r.h.errored && InTime(r) && r.now == l.now
      && r.server == l.server && r.h.pushed == l.h.pushed && Work(r) < Work(l)
  {
    CompletedReadKeepsInv(l, REQUEST_SIZE);
    CompletedRead(l, REQUEST_SIZE);
    var d := Delivered(l, REQUEST_SIZE);
    assert l.h.tqueue[0] in l.h.tqueue;
    assert forall t :: t in d.h.tqueue ==> t in l.h.tqueue;
  }

  /** What is on the way to the client comes in, and a completed answer is counted. */
  lemma DeliverStep(l: Link)
    requires Alive(l) && l.toClient != []
    ensures
      var r := Run(l, [Deliver(REQUEST_SIZE), Client(Next), Client(Next)]);
      && Alive(r) && r.now == l.now && r.h.pushed == l.h.pushed && Work(r) < Work(l)
  {
    RunThree(l, Deliver(REQUEST_SIZE), Client(Next), Client(Next));
    var l1 := Delivered(l, REQUEST_SIZE);
    if Completes(l, REQUEST_SIZE) {
      FullRead(l);
      ClientTurnKeepsInv(l1, Next);
      ClientTurnKeepsInv(ClientTurn(l1, Next), Next);
      AnswerCounted(l1.h, l.now);
    } else {
      PartialRead(l);
      IdleNext(l.h, l.now);
    }
  }

  lemma AnswerCounted(h: Handler, now: nat)
    requires h.pc.Answered? && !h.errored
    ensures
      var g := Turn(Turn(h, now, Next), now, Next);
      g.pc == Idle && !g.errored && g.tqueue == h.tqueue && g.pushed == h.pushed
    ensures Turn(h, now, Next).pushed == h.pushed
  {
  }

  lemma IdleNext(h: Handler, now: nat)
    requires h.pc == Idle
    ensures Turn(h, now, Next) == h
  {
    assert Plus(h.mine, ZERO) == h.mine;
  }

  /** One stage of draining. */
  lemma DrainStage(l: Link) returns (es: seq<LinkEvent>)
    requires Alive(l) && Work(l) > 0
    ensures
      var r := Run(l, es);
      Alive(r) && r.now == l.now && r.h.pushed == l.h.pushed && Work(r) < Work(l)
  {
    if l.toClient != [] {
      es := [Deliver(REQUEST_SIZE), Client(Next), Client(Next)];
      DeliverStep(l);
    } else {
      var flush := Kernel(Servers.Flush(l.server));
      FlushStep(l);
      RunOne(l, flush);
      if Servers.Abs(l.server).queue != [] {
        es := [flush];
      } else {
        var m := Step(l, flush);
        var arrive := Arrive(|m.toServer|, SendAgain);
        ArriveStep(m);
        RunOne(m, arrive);
        RunAppend(l, [flush], [arrive]);
        es := [flush] + [arrive];
      }
    }
  }

  lemma {:induction false} DrainFrom(l: Link) returns (es: seq<LinkEvent>)
    requires Alive(l)
    ensures
      var r := Run(l, es);
      Alive(r) && r.now == l.now && r.h.pushed == l.h.pushed && Work(r) == 0
    decreases Work(l)
  {
    if Work(l) == 0 {
      es := [];
    } else {
      var first := DrainStage(l);
      var rest := DrainFrom(Run(l, first));
      RunAppend(l, first, rest);
      es := first + rest;
    }
  }

  /** Nothing is ever stuck: from every state that any run reaches with the client reading, the server
      open and no timer run out, the kernel can finish the exchange at once, for every server: there
      is a continuation in no time after which every request sent so far is answered and counted. */
  lemma CanAlwaysFinish(l: Link, es: seq<LinkEvent>) returns (fs: seq<LinkEvent>)
    requires Opened(l)
    requires
      var r := Run(l, es);
      Reading(r) && InTime(r) && Servers.Abs(r.server).open
    ensures
      var r := Run(l, es);
      var d := Run(r, fs);
      && d.now == r.now && d.h.pushed == r.h.pushed
      && Reading(d) && d.h.tqueue == []
      && |d.h.answered| == |d.h.pushed| == d.h.mine.msgs
  {
    OpenedInv(l);
    RunKeepsInv(l, es);
    var r := Run(l, es);
    fs := DrainFrom(r);
    var d := Run(r, fs);
    Servers.StepRefines(d.server, Expire);
    assert |d.h.pushed| * REQUEST_SIZE == |d.h.answered| * REQUEST_SIZE + |d.readBuf|;
  }
}
