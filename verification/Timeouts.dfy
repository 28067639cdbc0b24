/** The timeout of a connection: the programs that buffer start it again only when a read is refused,
    server.c also when it has echoed something. Times are in seconds. */
module Timeouts {
  import opened Net
  import SlidingBuffer
  import Unbuffered

  const SOCKET_TIMEOUT: real := 60.0

  datatype Server = Buffered(conn: SlidingBuffer.Conn) | Direct(plain: Unbuffered.Plain)

  ghost predicate Inv(s: Server) {
    s.Buffered? ==> SlidingBuffer.Inv(s.conn)
  }

  ghost function Step(s: Server, e: Event): (t: Server)
    requires Inv(s)
    ensures Inv(t) && t.Buffered? == s.Buffered?
  {
    match s
    case Buffered(c) => SlidingBuffer.StepKeepsInv(c, e); Buffered(SlidingBuffer.Step(c, e))
    case Direct(p) => Direct(Unbuffered.Step(p, e))
  }

  function Live(s: Server): bool {
    match s
    case Buffered(c) => c.live
    case Direct(p) => p.live
  }

  function Restarts(s: Server): nat {
    match s
    case Buffered(c) => c.restarts
    case Direct(p) => p.restarts
  }

  datatype Timed = Timed(server: Server, deadline: real)

  datatype Moment = Moment(time: real, e: Event)

  /** The timer fires only when it is due; whatever starts it again moves its deadline. */
  ghost function Handle(s: Timed, m: Moment): (t: Timed)
    requires Inv(s.server)
    ensures Inv(t.server)
  {
    if m.e.Expire? && m.time < s.deadline then s else
    var server := Step(s.server, m.e);
    Timed(server, if Restarts(server) > Restarts(s.server) then m.time + SOCKET_TIMEOUT else s.deadline)
  }

  ghost function Run(s: Timed, ms: seq<Moment>): (t: Timed)
    requires Inv(s.server)
    ensures Inv(t.server)
    decreases |ms|
  {
    if ms == [] then s else Run(Handle(s, ms[0]), ms[1..])
  }

  /** Only the timer deletes the connection in this run: no error, no end of stream, no full buffer. */
  ghost predicate Harmless(s: Timed, ms: seq<Moment>)
    requires Inv(s.server)
    decreases |ms|
  {
    ms == [] ||
    ((Live(s.server) && !ms[0].e.Expire? ==> Live(Step(s.server, ms[0].e))) && Harmless(Handle(s, ms[0]), ms[1..]))
  }

  /** The clock does not run backwards, and the timer has been started at some earlier moment. */
  predicate InOrder(deadline: real, ms: seq<Moment>) {
    && (ms != [] ==> deadline <= ms[0].time + SOCKET_TIMEOUT)
    && (forall i, j :: 0 <= i < j < |ms| ==> ms[i].time <= ms[j].time)
  }

  predicate Renews(buffered: bool, e: Event) {
    e.Readable? && (e.r.RecvAgain? || (!buffered && e.r.Data? && e.r.bytes != [] && e.s.Sent?))
  }

  lemma RenewsExactly(s: Server, e: Event)
    requires Inv(s)
    ensures Restarts(Step(s, e)) > Restarts(s) <==> Live(s) && Renews(s.Buffered?, e)
  {
    if s.Buffered? {
      SlidingBuffer.RestartsExactly(s.conn, e);
    }
  }

  lemma {:induction false} DeadStays(s: Timed, ms: seq<Moment>)
    requires Inv(s.server) && !Live(s.server)
    ensures !Live(Run(s, ms).server)
    decreases |ms|
  {
    if ms != [] {
      DeadStays(Handle(s, ms[0]), ms[1..]);
    }
  }

  /** The moment i is within the timeout, counted from some earlier moment of the run that renews it. */
  predicate RenewedInTime(buffered: bool, ms: seq<Moment>, i: nat)
    requires i < |ms|
  {
    exists j :: 0 <= j < i && Renews(buffered, ms[j].e) && ms[i].time < ms[j].time + SOCKET_TIMEOUT
  }

  /** Whenever the loop looks at the timer it is not yet due, or has been renewed in time. */
  predicate AllInTime(buffered: bool, deadline: real, ms: seq<Moment>) {
    forall i :: 0 <= i < |ms| && ms[i].e.Expire? ==>
      ms[i].time < deadline || RenewedInTime(buffered, ms, i)
  }

  lemma LaterRenewal(buffered: bool, ms: seq<Moment>, i: nat)
    requires i + 1 < |ms|
    ensures RenewedInTime(buffered, ms, i + 1) <==>
      || RenewedInTime(buffered, ms[1..], i)
      || (Renews(buffered, ms[0].e) && ms[i + 1].time < ms[0].time + SOCKET_TIMEOUT)
  {
    if RenewedInTime(buffered, ms[1..], i) {
      var j :| 0 <= j < i && Renews(buffered, ms[1..][j].e) && ms[1..][i].time < ms[1..][j].time + SOCKET_TIMEOUT;
      assert Renews(buffered, ms[j + 1].e);
    }
    if RenewedInTime(buffered, ms, i + 1) {
      var j :| 0 <= j < i + 1 && Renews(buffered, ms[j].e) && ms[i + 1].time < ms[j].time + SOCKET_TIMEOUT;
      assert j > 0 ==> ms[1..][j - 1] == ms[j];
    }
  }

  /** Past its first moment, a run is in time for the new deadline exactly when it was for the old one. */
  lemma InTimeAfter(buffered: bool, deadline: real, ms: seq<Moment>)
    requires ms != [] && InOrder(deadline, ms) && (ms[0].e.Expire? ==> ms[0].time < deadline)
    ensures
      var next := if Renews(buffered, ms[0].e) then ms[0].time + SOCKET_TIMEOUT else deadline;
      InOrder(next, ms[1..]) && (AllInTime(buffered, deadline, ms) <==> AllInTime(buffered, next, ms[1..]))
  {
    var next := if Renews(buffered, ms[0].e) then ms[0].time + SOCKET_TIMEOUT else deadline;
    var rest := ms[1..];
    forall i | 0 <= i < |rest|
      ensures rest[i].time < next || RenewedInTime(buffered, rest, i) <==>
        ms[i + 1].time < deadline || RenewedInTime(buffered, ms, i + 1)
    {
      LaterRenewal(buffered, ms, i);
    }
    if AllInTime(buffered, deadline, ms) {
      forall i | 0 <= i < |rest| && rest[i].e.Expire?
        ensures rest[i].time < next || RenewedInTime(buffered, rest, i)
      {
        assert ms[i + 1].e.Expire?;
      }
    }
    if AllInTime(buffered, next, rest) {
      forall i | 0 <= i < |ms| && ms[i].e.Expire?
        ensures ms[i].time < deadline || RenewedInTime(buffered, ms, i)
      {
        assert i > 0 ==> rest[i - 1].e.Expire?;
      }
    }
  }

  /** When nothing else deletes the connection, it survives a run exactly when at each moment at which
      the loop looks at the timer there has been a renewal within the last minute: a refused read, or for
      server.c an echo. Traffic does not keep a connection of the buffered programs alive. */
  lemma {:induction false} SurvivesIff(s: Timed, ms: seq<Moment>)
    requires Inv(s.server) && Live(s.server) && InOrder(s.deadline, ms) && Harmless(s, ms)
    ensures Live(Run(s, ms).server) <==> AllInTime(s.server.Buffered?, s.deadline, ms)
    decreases |ms|
  {
    if ms == [] {
      return;
    }
    var buffered := s.server.Buffered?;
    var t := Handle(s, ms[0]);
    if ms[0].e.Expire? && ms[0].time >= s.deadline {
      assert !RenewedInTime(buffered, ms, 0);
      DeadStays(t, ms[1..]);
    } else {
      RenewsExactly(s.server, ms[0].e);
      InTimeAfter(buffered, s.deadline, ms);
      SurvivesIff(t, ms[1..]);
    }
  }

  ghost predicate New(s: Server) {
    match s
    case Buffered(c) => |c.buf| == SlidingBuffer.TO_SEND_SIZE && c == SlidingBuffer.Added(true, c.buf)
    case Direct(p) => p == Unbuffered.Added()
  }

  lemma OneEcho(s: Server, b: byte)
    requires New(s)
    ensures Inv(s)
    ensures
      var t := Step(s, Readable(Data([b]), Sent(1)));
      Live(t) && Restarts(t) == Restarts(s) + if s.Buffered? then 0 else 1
  {
    assert Taken([b], Unbuffered.BUF_SIZE) == [b] == Taken([b], SlidingBuffer.TO_SEND_SIZE);
    if s.Buffered? {
      SlidingBuffer.RestartsExactly(s.conn, Readable(Data([b]), Sent(1)));
    }
  }

  lemma TimerFires(s: Timed, time: real)
    requires Inv(s.server) && Live(s.server)
    ensures Live(Run(s, [Moment(time, Expire)]).server) <==> time < s.deadline
  {
    var m := Moment(time, Expire);
    assert Run(s, [m]) == Run(Handle(s, m), []);
  }

  /** One byte, echoed half a minute after the connection was made: the timer of the buffered server is due a
      minute after that making, and that of server.c a minute after the echo. */
  lemma EchoRenewsOnlyDirect(s: Server, b: byte, time: real)
    requires New(s)
    ensures Inv(s)
    ensures
      var ms := [Moment(30.0, Readable(Data([b]), Sent(1)))] + [Moment(time, Expire)];
      Live(Run(Timed(s, SOCKET_TIMEOUT), ms).server) <==> time < if s.Direct? then 90.0 else 60.0
  {
    var first, second := [Moment(30.0, Readable(Data([b]), Sent(1)))], [Moment(time, Expire)];
    OneEcho(s, b);
    var t := Handle(Timed(s, SOCKET_TIMEOUT), first[0]);
    assert (first + second)[1..] == second;
    TimerFires(t, time);
  }
}
