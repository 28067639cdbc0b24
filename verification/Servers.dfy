/** The four echo servers side by side: whatever the kernel does to them, they are runs of one
    specification, and no client can tell their outputs apart by content. */
module Servers {
  import opened Net
  import opened EchoSpec
  import SlidingBuffer
  import HalfDuplex
  import PingPong

  datatype Server =
    | Buffered(conn: SlidingBuffer.Conn)
    | Nio(key: HalfDuplex.Key)
    | Asio(peer: PingPong.Peer)

  ghost predicate Inv(s: Server) {
    match s
    case Buffered(c) => SlidingBuffer.Inv(c)
    case Nio(k) => HalfDuplex.Inv(k)
    case Asio(p) => PingPong.Inv(p)
  }

  ghost function Abs(s: Server): Echo
    requires Inv(s)
  {
    match s
    case Buffered(c) => SlidingBuffer.Abs(c)
    case Nio(k) => HalfDuplex.Abs(k)
    case Asio(p) => PingPong.Abs(p)
  }

  ghost function Step(s: Server, e: Event): (t: Server)
    requires Inv(s)
    ensures Inv(t)
  {
    match s
    case Buffered(c) => SlidingBuffer.StepKeepsInv(c, e); Buffered(SlidingBuffer.Step(c, e))
    case Nio(k) => HalfDuplex.StepRefines(k, e); Nio(HalfDuplex.Step(k, e))
    case Asio(p) => PingPong.StepRefines(p, e); Asio(PingPong.Step(p, e))
  }

  ghost function Actions(s: Server, e: Event): seq<Action>
    requires Inv(s)
  {
    match s
    case Buffered(c) => SlidingBuffer.Actions(c, e)
    case Nio(k) => HalfDuplex.Actions(k, e)
    case Asio(p) => PingPong.Actions(p, e)
  }

  ghost function Run(s: Server, es: seq<Event>): (t: Server)
    requires Inv(s)
    ensures Inv(t)
    decreases |es|
  {
    if es == [] then s else Run(Step(s, es[0]), es[1..])
  }

  ghost function RunActions(s: Server, es: seq<Event>): seq<Action>
    requires Inv(s)
    decreases |es|
  {
    if es == [] then [] else Actions(s, es[0]) + RunActions(Step(s, es[0]), es[1..])
  }

  lemma StepRefines(s: Server, e: Event)
    requires Inv(s)
    ensures Perform(Abs(s), Actions(s, e)) == Abs(Step(s, e))
    ensures Fifo(Abs(s)) && Fifo(Abs(Step(s, e)))
    ensures Abs(s).received <= Abs(Step(s, e)).received && Abs(s).sent <= Abs(Step(s, e)).sent
    ensures Abs(Step(s, e)).open ==> Abs(s).open
  {
    match s {
      case Buffered(c) => SlidingBuffer.StepRefines(c, e);
      case Nio(k) => HalfDuplex.StepRefines(k, e);
      case Asio(p) => PingPong.StepRefines(p, e);
    }
    assert Fifo(Abs(s));
    PerformKeepsFifo(Abs(s), Actions(s, e));
  }

  /** What a read may deliver in this turn. */
  function Offer(e: Event): seq<byte> {
    if e.Readable? && e.r.Data? then e.r.bytes else []
  }

  lemma BufferedReceives(c: SlidingBuffer.Conn, e: Event)
    requires SlidingBuffer.Inv(c)
    ensures SlidingBuffer.Step(c, e).received <= c.received + Offer(e)
  {
    if SlidingBuffer.Enabled(c, e) && e.Readable? && e.r.Data? {
      SlidingBuffer.ReceivedByRead(c, e.r.bytes, e.s);
    }
  }

  lemma NioReceives(k: HalfDuplex.Key, e: Event)
    requires HalfDuplex.Inv(k)
    ensures HalfDuplex.Step(k, e).received <= k.received + Offer(e)
  {
  }

  lemma AsioReceives(p: PingPong.Peer, e: Event)
    requires PingPong.Inv(p)
    ensures PingPong.Step(p, e).received <= p.received + Offer(e)
  {
  }

  /** A turn receives a prefix of what is offered, and nothing else. */
  lemma ReceivesOnlyOffered(s: Server, e: Event)
    requires Inv(s)
    ensures Abs(s).received <= Abs(Step(s, e)).received <= Abs(s).received + Offer(e)
  {
    StepRefines(s, e);
    match s {
      case Buffered(c) => BufferedReceives(c, e);
      case Nio(k) => NioReceives(k, e);
      case Asio(p) => AsioReceives(p, e);
    }
  }

  /** Every run of every server is a run of the echo service. */
  lemma {:induction false} RunRefines(s: Server, es: seq<Event>)
    requires Inv(s)
    ensures Perform(Abs(s), RunActions(s, es)) == Abs(Run(s, es))
    decreases |es|
  {
    if es != [] {
      StepRefines(s, es[0]);
      RunRefines(Step(s, es[0]), es[1..]);
      PerformAppend(Abs(s), Actions(s, es[0]), RunActions(Step(s, es[0]), es[1..]));
    }
  }

  /** A connection as its program creates it. */
  ghost predicate New(s: Server) {
    match s
    case Buffered(c) =>
      |c.buf| == SlidingBuffer.TO_SEND_SIZE && c == SlidingBuffer.Added(c.eofDeletes, c.buf)
    case Nio(k) => k == HalfDuplex.Registered()
    case Asio(p) => |p.data| == PingPong.MAX_LENGTH && p == PingPong.Accepted(p.data)
  }

  lemma NewIsInitial(s: Server)
    requires New(s)
    ensures Inv(s) && Abs(s) == INITIAL
  {
  }

  /** In every run the bytes sent, followed by the bytes still held, are the bytes received: also
      after the connection has been closed, when what is held is lost. */
  lemma RunIsFifo(s: Server, es: seq<Event>)
    requires New(s)
    ensures Inv(s) && Fifo(Abs(Run(s, es)))
    ensures Abs(Run(s, es)).sent <= Abs(Run(s, es)).received
  {
    NewIsInitial(s);
    RunRefines(s, es);
    PerformKeepsFifo(Abs(s), RunActions(s, es));
  }

  /** Any two runs, of the same or of different servers, whose inputs agree as far as both go have
      outputs that agree as far as both go; with equal inputs and nothing held back, equal outputs. */
  lemma OneSpecification(s: Server, es: seq<Event>, t: Server, fs: seq<Event>)
    requires New(s) && New(t)
    ensures Inv(s) && Inv(t)
    ensures
      var a, b := Abs(Run(s, es)), Abs(Run(t, fs));
      && (Comparable(a.received, b.received) ==> Comparable(a.sent, b.sent))
      && (a.received == b.received && a.queue == b.queue == [] ==> a.sent == b.sent)
  {
    RunIsFifo(s, es);
    RunIsFifo(t, fs);
    var a, b := Abs(Run(s, es)), Abs(Run(t, fs));
    if a.received <= b.received {
      Prefixes(a.sent, a.received, b.received);
      PrefixesOfOneStream(a.sent, b.sent, b.received);
    } else if b.received <= a.received {
      Prefixes(b.sent, b.received, a.received);
      PrefixesOfOneStream(a.sent, b.sent, a.received);
    }
  }

  // ----- Progress -----

  /** The kernel accepts all that the server holds. */
  ghost function Flush(s: Server): Event
    requires Inv(s)
  {
    Writable(Sent(|Abs(s).queue|))
  }

  ghost predicate ReadyToRead(s: Server) {
    match s
    case Buffered(c) => c.size == 0
    case Nio(k) => k.interest == HalfDuplex.OpRead
    case Asio(p) => p.op.Reading?
  }

  function Window(s: Server): (n: nat)
    requires Inv(s)
    ensures ReadyToRead(s) ==> n > 0
  {
    match s
    case Buffered(c) => SlidingBuffer.Remaining(SlidingBuffer.Compacted(c))
    case Nio(_) => HalfDuplex.CAPACITY
    case Asio(_) => PingPong.MAX_LENGTH
  }

  lemma BufferedFlush(c: SlidingBuffer.Conn)
    requires SlidingBuffer.Inv(c) && c.live
    ensures
      var d := SlidingBuffer.Step(c, Writable(Sent(c.size)));
      SlidingBuffer.Shape(d) && d.size == 0 && d.live && d.received == c.received
  {
  }

  lemma NioFlush(k: HalfDuplex.Key)
    requires HalfDuplex.Inv(k) && k.open
    ensures
      var d := HalfDuplex.Step(k, Writable(Sent(|HalfDuplex.Owed(k)|)));
      HalfDuplex.Inv(d) && d.interest == HalfDuplex.OpRead && d.open && d.received == k.received
  {
    HalfDuplex.StepRefines(k, Writable(Sent(|HalfDuplex.Owed(k)|)));
  }

  lemma AsioFlush(p: PingPong.Peer)
    requires PingPong.Inv(p) && p.alive
    ensures
      var q := PingPong.Step(p, Writable(Sent(|PingPong.InFlight(p)|)));
      q.op.Reading? && q.alive && q.received == p.received
  {
  }

  /** No lost wakeup, for all of them: while bytes are held, a turn in which the socket accepts them
      sends all of them and leaves the server ready to read. */
  lemma FlushSendsAll(s: Server)
    requires Inv(s) && Abs(s).open
    ensures
      var t := Step(s, Flush(s));
      && Abs(t) == Echo(Abs(s).received, Abs(s).received, [], true)
      && ReadyToRead(t)
  {
    StepRefines(s, Flush(s));
    var t := Step(s, Flush(s));
    match s {
      case Buffered(c) => BufferedFlush(c);
      case Nio(k) =>
        assert Abs(s).queue == HalfDuplex.Owed(k);
        NioFlush(k);
      case Asio(p) => AsioFlush(p);
    }
    assert Abs(t).received == Abs(s).received && Abs(t).open && ReadyToRead(t);
    ReadyHoldsNothing(t);
  }

  lemma ReadyHoldsNothing(s: Server)
    requires Inv(s) && Abs(s).open && ReadyToRead(s)
    ensures Abs(s).queue == [] && Abs(s).sent == Abs(s).received
  {
  }

  /** A server that is ready to read takes at least one byte of a non-empty offer. */
  lemma ReadTakes(s: Server, bytes: seq<byte>)
    requires Inv(s) && Abs(s).open && ReadyToRead(s) && bytes != []
    ensures
      var t := Step(s, Readable(Data(bytes), SendAgain));
      && Abs(t).open && Abs(t).sent == Abs(s).sent
      && Abs(t).received == Abs(s).received + Taken(bytes, Window(s))
      && Taken(bytes, Window(s)) != []
  {
    StepRefines(s, Readable(Data(bytes), SendAgain));
  }
}
