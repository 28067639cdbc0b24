/** The asio server's connection: one buffer and exactly one outstanding operation, a read of some
    bytes or a write of all of them (c++-virtan/server.cc). */
module PingPong {
  import opened Net
  import opened EchoSpec

  const MAX_LENGTH: nat := 4096

  /** `Writing(done, len)`: async_write has moved `done` of the first `len` bytes of the buffer. */
  datatype Operation = Reading | Writing(done: nat, len: nat)

  datatype Peer = Peer(data: seq<byte>, op: Operation, alive: bool, received: seq<byte>, sent: seq<byte>)

  predicate Shape(p: Peer) {
    && |p.data| == MAX_LENGTH
    && (p.op.Writing? ==> p.op.done <= p.op.len <= MAX_LENGTH)
  }

  /** What the write in flight has still to move. */
  function InFlight(p: Peer): seq<byte>
    requires Shape(p)
  {
    if p.op.Writing? then p.data[p.op.done..p.op.len] else []
  }

  function Accepted(memory: seq<byte>): Peer {
    Peer(memory, Reading, true, [], [])
  }

  /** The read handler: start writing back what came, or delete the connection. */
  function OnRead(p: Peer, r: RecvResult): (q: Peer)
    requires Shape(p)
    ensures Shape(q)
  {
    match r
    case RecvAgain => p
    case Eof => p.(alive := false)
    case RecvFail => p.(alive := false)
    case Data(bytes) =>
      var got := Taken(bytes, MAX_LENGTH);
      p.(data := got + p.data[|got|..], op := Writing(0, |got|), received := p.received + got)
  }

  /** Progress of the write; its handler runs once all bytes have gone. */
  function OnWrite(p: Peer, w: SendResult): (q: Peer)
    requires Shape(p) && p.op.Writing?
    ensures Shape(q)
  {
    match w
    case SendAgain => p
    case SendFail => p.(alive := false)
    case Sent(n) =>
      var m := Min(n, p.op.len - p.op.done);
      p.(sent := p.sent + InFlight(p)[..m],
         op := if p.op.done + m == p.op.len then Reading else Writing(p.op.done + m, p.op.len))
  }

  function Step(p: Peer, e: Event): (q: Peer)
    requires Shape(p)
    ensures Shape(q)
  {
    if !p.alive then p else
    match e
    case Readable(r, _) => if p.op.Reading? then OnRead(p, r) else p
    case Writable(w) => if p.op.Writing? then OnWrite(p, w) else p
    case Expire => p
  }

  ghost predicate Inv(p: Peer) {
    Shape(p) && Fifo(Abs(p))
  }

  function Abs(p: Peer): Echo
    requires Shape(p)
  {
    Echo(p.received, p.sent, InFlight(p), p.alive)
  }

  function Actions(p: Peer, e: Event): seq<Action> {
    if !p.alive then [] else
    match e
    case Expire => []
    case Readable(r, _) =>
      if p.op.Writing? then [] else
      (match r
       case RecvAgain => []
       case Eof => [Close]
       case RecvFail => [Close]
       case Data(bytes) => [Receive(Taken(bytes, MAX_LENGTH))])
    case Writable(w) =>
      if p.op.Reading? then [] else
      match w
      case SendFail => [Close]
      case SendAgain => []
      case Sent(n) => [Send(n)]
  }

  lemma WriteTakesHead(p: Peer, n: nat)
    requires Inv(p) && p.alive && p.op.Writing?
    ensures Inv(OnWrite(p, Sent(n))) && Abs(OnWrite(p, Sent(n))) == Act(Abs(p), Send(n))
  {
    var m := Min(n, p.op.len - p.op.done);
    assert InFlight(OnWrite(p, Sent(n))) == InFlight(p)[m..];
    assert InFlight(p) == InFlight(p)[..m] + InFlight(p)[m..];
  }

  lemma ReadFillsBuffer(p: Peer, bytes: seq<byte>)
    requires Inv(p) && p.alive && p.op.Reading?
    ensures Inv(OnRead(p, Data(bytes)))
    ensures Abs(OnRead(p, Data(bytes))) == Act(Abs(p), Receive(Taken(bytes, MAX_LENGTH)))
  {
    assert InFlight(OnRead(p, Data(bytes))) == Taken(bytes, MAX_LENGTH);
  }

  lemma StepRefines(p: Peer, e: Event)
    requires Inv(p)
    ensures Inv(Step(p, e))
    ensures Perform(Abs(p), Actions(p, e)) == Abs(Step(p, e))
  {
    PerformShort(Abs(p), Actions(p, e));
    if p.alive && e.Writable? && p.op.Writing? && e.w.Sent? {
      WriteTakesHead(p, e.w.n);
    } else if p.alive && e.Readable? && p.op.Reading? && e.r.Data? {
      ReadFillsBuffer(p, e.r.bytes);
    }
  }

  /** What deletes a connection: the end of the stream or an error of the outstanding operation. */
  lemma ClosesExactly(p: Peer, e: Event)
    requires Inv(p) && p.alive
    ensures !Step(p, e).alive <==>
      || (p.op.Reading? && e.Readable? && (e.r.Eof? || e.r.RecvFail?))
      || (p.op.Writing? && e == Writable(SendFail))
  {
  }

  /** A read that completes is followed by a write of exactly what it brought, at most 4096 bytes, and that
      write by the next read. */
  lemma TakesTurns(p: Peer, e: Event)
    requires Inv(p) && p.alive && Step(p, e).alive
    ensures
      var q := Step(p, e);
      && (p.op.Reading? ==>
        && q.sent == p.sent
        && (if e.Readable? && e.r.Data?
            then q.op.Writing? && InFlight(q) == Taken(e.r.bytes, 4096) && q.received == p.received + InFlight(q)
            else q == p))
      && (p.op.Writing? ==>
        && q.received == p.received
        && InFlight(q) == InFlight(p)[if e.Writable? && e.w.Sent? then Min(e.w.n, |InFlight(p)|) else 0..]
        && (q.op.Reading? <==> e.Writable? && e.w.Sent? && InFlight(q) == []))
  {
  }

  // ----- The program -----

  class Connection {
    const data: array<byte>
    var op: Operation
    var alive: bool
    ghost var received: seq<byte>
    ghost var sent: seq<byte>

    ghost function State(): Peer
      reads this, data
    {
      Peer(data[..], op, alive, received, sent)
    }

    ghost predicate Valid()
      reads this, data
    {
      Inv(State())
    }

    /** The acceptor calls `start` on the new connection at once. */
    constructor ()
      ensures Valid() && fresh(data) && State() == Accepted(data[..])
    {
      data := new byte[MAX_LENGTH];
      op := Reading;
      alive := true;
      received, sent := [], [];
    }

    /** The completion of async_read_some, up to and including the handler `read`. */
    method Read(r: RecvResult)
      requires Valid() && alive && op.Reading?
      modifies this, data
      ensures Valid() && State() == Step(old(State()), Readable(r, SendAgain))
    {
      StepRefines(State(), Readable(r, SendAgain));
      match r
      case RecvAgain =>
      case Eof => alive := false;
      case RecvFail => alive := false;
      case Data(bytes) =>
        Deliver(Taken(bytes, data.Length));
    }

    method Deliver(got: seq<byte>)
      requires |got| <= data.Length == MAX_LENGTH
      modifies this`op, this`received, data
      ensures data[..] == got + old(data[|got|..])
      ensures op == Writing(0, |got|) && received == old(received) + got
    {
      forall i | 0 <= i < |got| {
        data[i] := got[i];
      }
      received := received + got;
      op := Writing(0, |got|);
    }

    /** One step of async_write, and the handler `write` when it was the last one. */
    method Write(w: SendResult)
      requires Valid() && alive && op.Writing?
      modifies this
      ensures Valid() && State() == Step(old(State()), Writable(w))
    {
      StepRefines(State(), Writable(w));
      match w
      case SendAgain =>
      case SendFail => alive := false;
      case Sent(n) =>
        Advance(Min(n, op.len - op.done));
        assert State() == OnWrite(old(State()), w);
    }

    method Advance(m: nat)
      requires Shape(State()) && op.Writing? && m <= op.len - op.done
      modifies this`op, this`sent
      ensures sent == old(sent) + old(InFlight(State()))[..m]
      ensures op == old(if op.done + m == op.len then Reading else Writing(op.done + m, op.len))
    {
      sent := sent + InFlight(State())[..m];
      op := if op.done + m == op.len then Reading else Writing(op.done + m, op.len);
    }
  }
}
