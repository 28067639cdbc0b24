/** The Java server's connection: one ByteBuffer, filled while the key's interest is OP_READ and
    drained while it is OP_WRITE (Server.java, ReadWriteProcessor). */
module HalfDuplex {
  import opened Net
  import opened EchoSpec

  const CAPACITY: nat := 8192

  datatype Interest = OpRead | OpWrite

  datatype Option<+T> = None | Some(value: T)

  /** A java.nio.ByteBuffer: bytes `position..limit` are the readable part. */
  datatype Buffer = Buffer(data: seq<byte>, position: nat, limit: nat)

  /** A selection key with its attachment, and the byte streams of its channel. */
  datatype Key = Key(
    attachment: Option<Buffer>,
    interest: Interest,
    open: bool,
    received: seq<byte>,
    sent: seq<byte>)

  predicate Shape(b: Buffer) {
    |b.data| == CAPACITY && b.position <= b.limit <= CAPACITY
  }

  function Unread(b: Buffer): (u: seq<byte>)
    requires Shape(b)
  {
    b.data[b.position..b.limit]
  }

  /** `clear`, a read of `got` into the buffer, then `flip`. */
  function Filled(b: Buffer, got: seq<byte>): (r: Buffer)
    requires |b.data| == CAPACITY && |got| <= CAPACITY
    ensures Shape(r) && Unread(r) == got
  {
    Buffer(got + b.data[|got|..], 0, |got|)
  }

  predicate KeyShape(k: Key) {
    k.attachment.Some? ==> Shape(k.attachment.value)
  }

  function Registered(): Key {
    Key(None, OpRead, true, [], [])
  }

  /** handleBeforeClose, then the channel is closed. */
  function Closed(k: Key): Key {
    k.(attachment := None, open := false)
  }

  /** A read of no bytes turns the interest all the same; only the end of the stream or an exception
      closes. */
  function OnReadable(k: Key, memory: seq<byte>, r: RecvResult): (d: Key)
    requires KeyShape(k) && |memory| == CAPACITY
    ensures KeyShape(d)
  {
    match r
    case Data(bytes) => Received(k, memory, Taken(bytes, CAPACITY))
    case RecvAgain => Received(k, memory, [])
    case Eof => Closed(k)
    case RecvFail => Closed(k)
  }

  function Received(k: Key, memory: seq<byte>, got: seq<byte>): (d: Key)
    requires KeyShape(k) && |memory| == CAPACITY && |got| <= CAPACITY
    ensures KeyShape(d)
  {
    var b := if k.attachment.Some? then k.attachment.value else Buffer(memory, 0, CAPACITY);
    k.(attachment := Some(Filled(b, got)), interest := OpWrite, received := k.received + got)
  }

  function Drained(k: Key, n: nat): (d: Key)
    requires KeyShape(k) && k.attachment.Some?
    ensures KeyShape(d) && d.attachment.Some?
  {
    var b := k.attachment.value;
    var m := Min(n, b.limit - b.position);
    k.(attachment := Some(b.(position := b.position + m)),
       interest := if b.position + m == b.limit then OpRead else k.interest,
       sent := k.sent + Unread(b)[..m])
  }

  function OnWritable(k: Key, w: SendResult): (d: Key)
    requires KeyShape(k) && k.attachment.Some?
    ensures KeyShape(d)
  {
    match w
    case SendFail => Closed(k)
    case SendAgain => Drained(k, 0)
    case Sent(n) => Drained(k, n)
  }

  function Zeros(): (m: seq<byte>)
    ensures |m| == CAPACITY
  {
    seq(CAPACITY, _ => 0)
  }

  /** The selector reports only the operation the key is interested in. A direct buffer starts out
      zeroed. */
  function Step(k: Key, e: Event): (d: Key)
    requires Inv(k)
    ensures KeyShape(d)
  {
    if !k.open then k else
    match e
    case Readable(r, _) => if k.interest == OpRead then OnReadable(k, Zeros(), r) else k
    case Writable(w) => if k.interest == OpWrite then OnWritable(k, w) else k
    case Expire => k
  }

  /** Between two calls of `process`: what was written followed by the unread part of the buffer is
      what was read, and interest in reading means that nothing is left unread. `clear` therefore
      never discards unsent bytes. */
  predicate Inv(k: Key) {
    && KeyShape(k)
    && k.sent <= k.received
    && (k.open ==>
      && k.received == k.sent + Owed(k)
      && (k.interest == OpRead ==> Owed(k) == [])
      && (k.interest == OpWrite ==> k.attachment.Some?))
  }

  function Owed(k: Key): seq<byte>
    requires KeyShape(k)
  {
    if k.attachment.Some? then Unread(k.attachment.value) else []
  }

  function Abs(k: Key): Echo
    requires Inv(k)
  {
    Echo(k.received, k.sent, k.received[|k.sent|..], k.open)
  }

  function Actions(k: Key, e: Event): seq<Action> {
    if !k.open then [] else
    match e
    case Expire => []
    case Readable(r, _) =>
      if k.interest == OpWrite then [] else
      (match r
       case Data(bytes) => [Receive(Taken(bytes, CAPACITY))]
       case RecvAgain => [Receive([])]
       case Eof => [Close]
       case RecvFail => [Close])
    case Writable(w) =>
      if k.interest == OpRead then [] else
      match w
      case SendFail => [Close]
      case SendAgain => []
      case Sent(n) => [Send(n)]
  }

  lemma DrainedTakesHead(k: Key, n: nat)
    requires Inv(k) && k.open && k.interest == OpWrite
    ensures Inv(Drained(k, n))
    ensures Abs(Drained(k, n)) == Act(Abs(k), Send(n))
  {
    var b := k.attachment.value;
    var m := Min(n, b.limit - b.position);
    var d := Drained(k, n);
    assert Unread(b) == Unread(b)[..m] + Unread(b)[m..];
    assert Unread(d.attachment.value) == Unread(b)[m..];
    assert k.received[|k.sent|..] == Unread(b);
    assert d.received == d.sent + Unread(b)[m..];
    assert d.received[|d.sent|..] == Unread(b)[m..];
  }

  lemma StepRefines(k: Key, e: Event)
    requires Inv(k)
    ensures Inv(Step(k, e))
    ensures Perform(Abs(k), Actions(k, e)) == Abs(Step(k, e))
  {
    var d := Step(k, e);
    PerformShort(Abs(k), Actions(k, e));
    if k.open && e.Writable? && k.interest == OpWrite && !e.w.SendFail? {
      DrainedTakesHead(k, if e.w.Sent? then e.w.n else 0);
    } else if k.open && e.Readable? && k.interest == OpRead && (e.r.Data? || e.r.RecvAgain?) {
      var got := if e.r.Data? then Taken(e.r.bytes, CAPACITY) else [];
      assert k.received == k.sent;
      assert d.received[|d.sent|..] == got;
    }
  }

  /** What closes an open key: the end of the stream or an exception of the operation that it is
      interested in. A closed one has let go of its buffer. */
  lemma ClosesExactly(k: Key, e: Event)
    requires Inv(k) && k.open
    ensures !Step(k, e).open <==>
      || (k.interest == OpRead && e.Readable? && (e.r.Eof? || e.r.RecvFail?))
      || (k.interest == OpWrite && e == Writable(SendFail))
    ensures !Step(k, e).open ==>
      Step(k, e).attachment.None? && Step(k, e).received == k.received && Step(k, e).sent == k.sent
  {
  }

  /** A key that stays open reads until something has been read, be it nothing, and then writes until
      all of that is written; each read takes what fits 8192 bytes. */
  lemma TakesTurns(k: Key, e: Event)
    requires Inv(k) && Step(k, e).open
    ensures
      var d := Step(k, e);
      && (k.interest == OpRead ==>
        && (d.interest == OpWrite <==> e.Readable?)
        && d.sent == k.sent
        && d.received == k.received + if e.Readable? && e.r.Data? then Taken(e.r.bytes, 8192) else [])
      && (k.interest == OpWrite ==>
        && (d.interest == OpRead <==> e.Writable? && Owed(d) == [])
        && d.received == k.received
        && |d.sent| == |k.sent| + if e.Writable? && e.w.Sent? then Min(e.w.n, |Owed(k)|) else 0)
  {
  }

  // ----- The program -----

  class ByteBuffer {
    const bytes: array<byte>
    var position: nat
    var limit: nat

    ghost function Value(): Buffer
      reads this, bytes
    {
      Buffer(bytes[..], position, limit)
    }

    /** ByteBuffer.allocateDirect */
    constructor ()
      ensures fresh(bytes)
      ensures Value() == Buffer(Zeros(), 0, CAPACITY)
    {
      bytes := new byte[CAPACITY](_ => 0);
      position, limit := 0, CAPACITY;
    }

    method Clear()
      modifies this
      ensures position == 0 && limit == bytes.Length
    {
      position, limit := 0, bytes.Length;
    }

    method Flip()
      modifies this
      ensures position == 0 && limit == old(position)
    {
      limit := position;
      position := 0;
    }

    /** A channel read puts bytes at `position` and moves it forward. */
    method Put(got: seq<byte>)
      requires position + |got| <= limit <= bytes.Length
      modifies this`position, bytes
      ensures position == old(position) + |got|
      ensures bytes[..] == old(bytes[..position]) + got + old(bytes[position + |got|..])
    {
      forall i | 0 <= i < |got| {
        bytes[position + i] := got[i];
      }
      position := position + |got|;
    }

    /** A channel read of `got` into the cleared buffer, then `flip`. */
    method Fill(got: seq<byte>)
      requires position == 0 && limit == bytes.Length == CAPACITY && |got| <= CAPACITY
      modifies this, bytes
      ensures Value() == Filled(old(Value()), got)
    {
      Put(got);
      Flip();
    }
  }

  /** A registered socket channel with its key. */
  class Connection {
    var attachment: ByteBuffer?
    var interest: Interest
    var open: bool
    ghost var received: seq<byte>
    ghost var sent: seq<byte>

    ghost function Repr(): set<object>
      reads this
    {
      if attachment == null then {this} else {this, attachment, attachment.bytes}
    }

    ghost function State(): Key
      reads this, Repr()
    {
      Key(if attachment == null then None else Some(attachment.Value()), interest, open, received, sent)
    }

    ghost predicate Valid()
      reads this, Repr()
    {
      Inv(State())
    }

    constructor ()
      ensures Valid() && State() == Registered()
    {
      attachment := null;
      interest := OpRead;
      open := true;
      received, sent := [], [];
    }

    /** `process` when the key is readable; true asks the caller to close. */
    method ProcessReadable(r: RecvResult) returns (close: bool)
      requires Valid() && open && interest == OpRead
      modifies Repr()
      ensures fresh(Repr() - old(Repr()))
      ensures close <==> r.Eof? || r.RecvFail?
      ensures !close ==> State() == OnReadable(old(State()), Zeros(), r)
      ensures close ==> open && received == old(received) && sent == old(sent) && interest == old(interest)
    {
      if attachment == null {
        attachment := new ByteBuffer();
      }
      attachment.Clear();
      match r {
        case Eof =>
          return true;
        case RecvFail =>
          return true;
        case RecvAgain =>
          attachment.Fill([]);
        case Data(bytes) =>
          var got := Taken(bytes, attachment.limit);
          attachment.Fill(got);
          received := received + got;
      }
      interest := OpWrite;
      close := false;
      assert r.RecvAgain? ==> received == old(received) + [];
    }

    /** `process` when the key is writable. */
    method ProcessWritable(w: SendResult) returns (close: bool)
      requires Valid() && open && interest == OpWrite
      modifies this, attachment
      ensures attachment == old(attachment)
      ensures close <==> w == SendFail
      ensures !close ==> State() == OnWritable(old(State()), w)
      ensures close ==> open && received == old(received) && sent == old(sent) && interest == old(interest)
    {
      if w.SendFail? {
        return true;
      }
      var n := if w.Sent? then Min(w.n, attachment.limit - attachment.position) else 0;
      sent := sent + Unread(attachment.Value())[..n];
      attachment.position := attachment.position + n;
      if attachment.position == attachment.limit {
        interest := OpRead;
      }
      close := false;
    }

    method Close()
      modifies this`attachment, this`open
      ensures attachment == null && !open
    {
      attachment := null;
      open := false;
    }

    /** One selected key in IOScheduler's worker: process it, and close it when asked to. */
    method Turn(e: Event)
      requires Valid()
      modifies Repr()
      ensures Valid() && fresh(Repr() - old(Repr()))
      ensures State() == Step(old(State()), e)
    {
      StepRefines(State(), e);
      if !open {
        return;
      }
      var close := false;
      if e.Readable? && interest == OpRead {
        close := ProcessReadable(e.r);
      } else if e.Writable? && interest == OpWrite {
        close := ProcessWritable(e.w);
      }
      if close {
        Close();
      }
    }
  }
}
