/** The buffered echo server of server-honest.c and thread-honest.c: a fixed array, a moving start
    and a length, compacted in place, with an optimistic send inside the read callback and a write
    watcher for what that send leaves over. */
module SlidingBuffer {
  import opened Net
  import opened EchoSpec

  const TO_SEND_SIZE: nat := 16384
  const COMPACT_BELOW: nat := 32

  datatype Watcher = RecvWatcher | SendWatcher | TimeoutWatcher

  /** The value of one connection. `eofDeletes` tells the two programs apart: a read of zero bytes
      deletes the connection in server-honest.c and is ignored in thread-honest.c. History: `received`
      and `sent` are the bytes that `recv` delivered and `send` accepted, and `restarts` counts how
      often a callback has started the timeout again. */
  datatype Conn = Conn(
    eofDeletes: bool,
    buf: seq<byte>,
    beg: nat,
    size: nat,
    watchers: set<Watcher>,
    live: bool,
    restarts: nat,
    received: seq<byte>,
    sent: seq<byte>)

  predicate Shape(c: Conn) {
    && |c.buf| == TO_SEND_SIZE
    && c.beg + c.size <= TO_SEND_SIZE
  }

  function Pending(c: Conn): (p: seq<byte>)
    requires Shape(c)
  {
    c.buf[c.beg..c.beg + c.size]
  }

  /** A connection just accepted; its memory is not initialised. */
  function Added(eofDeletes: bool, memory: seq<byte>): Conn {
    Conn(eofDeletes, memory, 0, 0, {RecvWatcher, TimeoutWatcher}, true, 0, [], [])
  }

  function Deleted(c: Conn): Conn {
    c.(watchers := {}, live := false)
  }

  /** What the memory holds once the pending slice has been moved to offset 0. */
  function MovedDown(buf: seq<byte>, beg: nat, size: nat): (r: seq<byte>)
    requires beg + size <= |buf|
    ensures |r| == |buf|
    ensures forall i :: 0 <= i < size ==> r[i] == buf[beg + i]
    ensures forall i :: size <= i < |buf| ==> r[i] == buf[i]
  {
    buf[beg..beg + size] + buf[size..]
  }

  function Remaining(c: Conn): nat
    requires Shape(c)
  {
    TO_SEND_SIZE - (c.beg + c.size)
  }

  function Compacted(c: Conn): (r: Conn)
    requires Shape(c)
    ensures Shape(r)
  {
    if Remaining(c) < COMPACT_BELOW
    then c.(buf := MovedDown(c.buf, c.beg, c.size), beg := 0)
    else c
  }

  function Stored(c: Conn, got: seq<byte>): (r: Conn)
    requires Shape(c) && |got| <= Remaining(c)
    ensures Shape(r)
  {
    var end := c.beg + c.size;
    c.(buf := c.buf[..end] + got + c.buf[end + |got|..],
       size := c.size + |got|,
       received := c.received + got)
  }

  function Emitted(c: Conn, n: nat): (r: Conn)
    requires Shape(c) && n <= c.size
    ensures Shape(r)
  {
    c.(beg := c.beg + n, size := c.size - n, sent := c.sent + Pending(c)[..n])
  }

  /** The optimistic send at the end of the read callback. */
  function SendAfterRecv(c: Conn, s: SendResult): (r: Conn)
    requires Shape(c)
    ensures Shape(r)
  {
    match s
    case SendAgain => c.(watchers := c.watchers + {SendWatcher})
    case SendFail => Deleted(c)
    case Sent(n) =>
      var d := Emitted(c, Min(n, c.size));
      if d.size > 0 then d.(watchers := d.watchers + {SendWatcher}) else d
  }

  function OnRecv(c: Conn, r: RecvResult, s: SendResult): (d: Conn)
    requires Shape(c)
    ensures Shape(d)
  {
    var k := Compacted(c);
    match r
    case RecvAgain => k.(restarts := k.restarts + 1)
    case RecvFail => Deleted(k)
    case Eof => if c.eofDeletes then Deleted(k) else k
    case Data(bytes) =>
      var got := Taken(bytes, Remaining(k));
      if got == [] then
        if c.eofDeletes then Deleted(k) else k
      else
        SendAfterRecv(Stored(k, got), s)
  }

  function OnSend(c: Conn, s: SendResult): (d: Conn)
    requires Shape(c)
    ensures Shape(d)
  {
    match s
    case SendAgain => c
    case SendFail => Deleted(c)
    case Sent(n) =>
      var d := Emitted(c, Min(n, c.size));
      if d.size > 0 then d else d.(watchers := d.watchers - {SendWatcher})
  }

  predicate Enabled(c: Conn, e: Event) {
    match e
    case Readable(_, _) => RecvWatcher in c.watchers
    case Writable(_) => SendWatcher in c.watchers
    case Expire => TimeoutWatcher in c.watchers
  }

  /** One turn of the event loop: a callback runs only while its watcher is active. */
  function Step(c: Conn, e: Event): (d: Conn)
    requires Shape(c)
    ensures Shape(d)
  {
    if !Enabled(c, e) then c else
    match e
    case Readable(r, s) => OnRecv(c, r, s)
    case Writable(s) => OnSend(c, s)
    case Expire => Deleted(c)
  }

  function Run(c: Conn, es: seq<Event>): (d: Conn)
    requires Shape(c)
    ensures Shape(d)
    decreases |es|
  {
    if es == [] then c else Run(Step(c, es[0]), es[1..])
  }

  // ----- Refinement of the echo service -----

  function Abs(c: Conn): Echo
    requires Shape(c)
  {
    Echo(c.received, c.sent, Pending(c), c.live)
  }

  /** What the peer can see of a send result. */
  function SendActions(s: SendResult): seq<Action> {
    match s
    case SendAgain => []
    case SendFail => [Close]
    case Sent(n) => [Send(n)]
  }

  function Actions(c: Conn, e: Event): seq<Action>
    requires Shape(c)
  {
    if !Enabled(c, e) then [] else
    match e
    case Expire => [Close]
    case Writable(s) => SendActions(s)
    case Readable(r, s) =>
      match r
      case RecvAgain => []
      case RecvFail => [Close]
      case Eof => if c.eofDeletes then [Close] else []
      case Data(bytes) =>
        var got := Taken(bytes, Remaining(Compacted(c)));
        if got == [] then
          if c.eofDeletes then [Close] else []
        else
          [Receive(got)] + SendActions(s)
  }

  /** The compaction keeps the pending bytes, leaves a window of at least 32 bytes whenever that many
      are free, and an empty one only when the whole array is pending. */
  lemma CompactedKeepsPending(c: Conn)
    requires Shape(c)
    ensures Pending(Compacted(c)) == Pending(c)
    ensures Remaining(Compacted(c)) >= Min(COMPACT_BELOW, TO_SEND_SIZE - c.size)
    ensures Remaining(Compacted(c)) == 0 <==> c.size == TO_SEND_SIZE
  {
  }

  lemma ReceivedByRead(c: Conn, bytes: seq<byte>, s: SendResult)
    requires Shape(c)
    ensures OnRecv(c, Data(bytes), s).received == c.received + Taken(bytes, Remaining(Compacted(c)))
  {
    var k := Compacted(c);
    var got := Taken(bytes, Remaining(k));
    SendKeepsInput(Stored(k, got), s);
  }

  /** The array has 16384 bytes. While 32 of them or more are free behind the pending ones, a read is
      offered exactly these and nothing is moved; with fewer, the pending bytes are first moved to the
      start, and the read is offered all that is free. */
  lemma ReadsExactly(c: Conn, bytes: seq<byte>, s: SendResult)
    requires Inv(c) && c.live
    ensures
      var behind := 16384 - (c.beg + c.size);
      var d, f := Step(c, Readable(Data(bytes), s)), Step(c, Readable(RecvAgain, s));
      && d.received == c.received + Taken(bytes, if behind >= 32 then behind else 16384 - c.size)
      && f.live && f.size == c.size && Pending(f) == Pending(c)
      && (if behind >= 32 then f.beg == c.beg && f.buf == c.buf else f.beg == 0)
      && f.buf[c.size..] == c.buf[c.size..]
  {
    CompactedKeepsPending(c);
    ReceivedByRead(c, bytes, s);
    var k := Compacted(c);
    assert k.buf[c.size..] == c.buf[c.size..];
  }

  lemma StoredAppends(c: Conn, got: seq<byte>)
    requires Shape(c) && |got| <= Remaining(c)
    ensures Pending(Stored(c, got)) == Pending(c) + got
  {
  }

  lemma StoredNothing(c: Conn)
    requires Shape(c)
    ensures Stored(c, []) == c
  {
  }

  lemma EmittedTakesHead(c: Conn, n: nat)
    requires Shape(c) && n <= c.size
    ensures Pending(Emitted(c, n)) == Pending(c)[n..]
  {
  }

  lemma EmittedRefines(c: Conn, n: nat)
    requires Shape(c) && c.live
    ensures Act(Abs(c), Send(n)) == Abs(Emitted(c, Min(n, c.size)))
  {
    EmittedTakesHead(c, Min(n, c.size));
  }

  lemma AbsIgnoresWatchers(c: Conn, watchers: set<Watcher>)
    requires Shape(c)
    ensures Abs(c.(watchers := watchers)) == Abs(c)
  {
  }

  lemma SendAfterRecvRefines(c: Conn, s: SendResult)
    requires Shape(c) && c.live
    ensures Perform(Abs(c), SendActions(s)) == Abs(SendAfterRecv(c, s))
  {
    PerformShort(Abs(c), SendActions(s));
    AbsIgnoresWatchers(c, c.watchers + {SendWatcher});
    if s.Sent? {
      EmittedRefines(c, s.n);
      var d := Emitted(c, Min(s.n, c.size));
      AbsIgnoresWatchers(d, d.watchers + {SendWatcher});
    }
  }

  lemma OnSendRefines(c: Conn, s: SendResult)
    requires Shape(c) && c.live
    ensures Perform(Abs(c), SendActions(s)) == Abs(OnSend(c, s))
  {
    PerformShort(Abs(c), SendActions(s));
    if s.Sent? {
      EmittedRefines(c, s.n);
      var d := Emitted(c, Min(s.n, c.size));
      AbsIgnoresWatchers(d, d.watchers - {SendWatcher});
    }
  }

  lemma RecvRefines(c: Conn, bytes: seq<byte>, s: SendResult)
    requires Shape(c) && c.live && Taken(bytes, Remaining(Compacted(c))) != []
    ensures
      var got := Taken(bytes, Remaining(Compacted(c)));
      Perform(Abs(c), [Receive(got)] + SendActions(s)) == Abs(OnRecv(c, Data(bytes), s))
  {
    var k := Compacted(c);
    var got := Taken(bytes, Remaining(k));
    CompactedKeepsPending(c);
    StoredAppends(k, got);
    PerformAppend(Abs(c), [Receive(got)], SendActions(s));
    PerformShort(Abs(c), [Receive(got)]);
    SendAfterRecvRefines(Stored(k, got), s);
  }

  /** One callback is at most one arrival followed by at most one departure or a close. */
  lemma StepRefines(c: Conn, e: Event)
    requires Inv(c)
    ensures Perform(Abs(c), Actions(c, e)) == Abs(Step(c, e))
  {
    if !Enabled(c, e) {
      return;
    }
    CompactedKeepsPending(c);
    if e.Writable? {
      OnSendRefines(c, e.w);
    } else if e.Readable? && e.r.Data? && Taken(e.r.bytes, Remaining(Compacted(c))) != [] {
      RecvRefines(c, e.r.bytes, e.s);
    } else {
      PerformShort(Abs(c), Actions(c, e));
    }
  }

  // ----- What every callback keeps -----

  /** The watchers between two callbacks: a live connection always reads and always has its timer,
      and pending bytes imply an active write watcher. A freed connection has no watcher left, so no
      callback can run on it. */
  predicate Watching(c: Conn) {
    if c.live then
      && {RecvWatcher, TimeoutWatcher} <= c.watchers
      && (c.size > 0 ==> SendWatcher in c.watchers)
    else
      c.watchers == {}
  }

  ghost predicate Inv(c: Conn) {
    Shape(c) && Watching(c) && Fifo(Abs(c))
  }

  lemma RecvKeepsWatching(c: Conn, r: RecvResult, s: SendResult)
    requires Shape(c) && Watching(c) && c.live
    ensures Watching(OnRecv(c, r, s))
  {
    var k := Compacted(c);
    assert Watching(k);
    if r.Data? {
      SendKeepsWatching(Stored(k, Taken(r.bytes, Remaining(k))), s);
    }
  }

  /** The optimistic send puts the write watcher in place for whatever it leaves. */
  lemma SendKeepsWatching(c: Conn, s: SendResult)
    requires Shape(c) && c.live && {RecvWatcher, TimeoutWatcher} <= c.watchers
    ensures Watching(SendAfterRecv(c, s))
  {
  }

  lemma StepKeepsWatching(c: Conn, e: Event)
    requires Shape(c) && Watching(c)
    ensures Watching(Step(c, e))
  {
    if Enabled(c, e) && e.Readable? {
      RecvKeepsWatching(c, e.r, e.s);
    }
  }

  lemma StepKeepsInv(c: Conn, e: Event)
    requires Inv(c)
    ensures Inv(Step(c, e))
  {
    StepKeepsWatching(c, e);
    StepRefines(c, e);
    PerformKeepsFifo(Abs(c), Actions(c, e));
  }

  lemma {:induction false} RunKeepsInv(c: Conn, es: seq<Event>)
    requires Inv(c)
    ensures Inv(Run(c, es))
    decreases |es|
  {
    if es != [] {
      StepKeepsInv(c, es[0]);
      RunKeepsInv(Step(c, es[0]), es[1..]);
    }
  }

  lemma AddedInv(eofDeletes: bool, memory: seq<byte>)
    requires |memory| == TO_SEND_SIZE
    ensures Inv(Added(eofDeletes, memory))
  {
  }

  /** A send of either callback touches nothing on the side of the reads. */
  lemma SendKeepsInput(c: Conn, s: SendResult)
    requires Shape(c)
    ensures SendAfterRecv(c, s).restarts == OnSend(c, s).restarts == c.restarts
    ensures SendAfterRecv(c, s).received == OnSend(c, s).received == c.received
    ensures SendAfterRecv(c, s).eofDeletes == OnSend(c, s).eofDeletes == c.eofDeletes
  {
  }

  /** What ends a connection: its timeout; an error of a read, or of the write that follows a read or
      answers the write watcher; and in server-honest.c a read of zero bytes, which is the end of the
      stream, or any read into a full array. */
  lemma ClosesExactly(c: Conn, e: Event)
    requires Inv(c) && c.live
    ensures !Step(c, e).live <==>
      match e
      case Expire => true
      case Writable(w) => SendWatcher in c.watchers && w == SendFail
      case Readable(r, s) =>
        match r
        case RecvAgain => false
        case RecvFail => true
        case Eof => c.eofDeletes
        case Data(bytes) => if bytes == [] || c.size == 16384 then c.eofDeletes else s == SendFail
  {
    CompactedKeepsPending(c);
    if e.Readable? && e.r.Data? {
      var k := Compacted(c);
      var d := Stored(k, Taken(e.r.bytes, Remaining(k)));
      assert SendAfterRecv(d, e.s).live <==> e.s != SendFail;
    }
  }

  /** A read that is refused sets the timeout back; bytes that arrive or leave do not. */
  lemma RestartsExactly(c: Conn, e: Event)
    requires Inv(c)
    ensures Step(c, e).restarts ==
      c.restarts + if c.live && e.Readable? && e.r.RecvAgain? then 1 else 0
  {
    if e.Readable? && e.r.Data? {
      var k := Compacted(c);
      SendKeepsInput(Stored(k, Taken(e.r.bytes, Remaining(k))), e.s);
    } else if e.Writable? {
      SendKeepsInput(c, e.w);
    }
  }

  lemma {:induction false} DeletedStays(c: Conn, es: seq<Event>)
    requires Shape(c) && c.watchers == {}
    ensures Run(c, es) == c
    decreases |es|
  {
    if es != [] {
      DeletedStays(c, es[1..]);
    }
  }

  /** Over every run of a new connection: the pending slice lies in the array, what was sent followed by
      that slice is what was received, pending bytes of a live connection have an active write watcher;
      and once the connection is deleted no later event runs a callback on it. */
  lemma EveryRun(eofDeletes: bool, memory: seq<byte>, es: seq<Event>, later: seq<Event>)
    requires |memory| == TO_SEND_SIZE
    ensures
      var c := Run(Added(eofDeletes, memory), es);
      && |c.buf| == TO_SEND_SIZE && c.beg + c.size <= TO_SEND_SIZE
      && c.received == c.sent + c.buf[c.beg..c.beg + c.size]
      && (c.live && c.size > 0 ==> SendWatcher in c.watchers)
      && (!c.live ==> Run(c, later) == c)
  {
    AddedInv(eofDeletes, memory);
    RunKeepsInv(Added(eofDeletes, memory), es);
    var c := Run(Added(eofDeletes, memory), es);
    if !c.live {
      DeletedStays(c, later);
    }
  }

  // ----- The full buffer -----

  /** There are bytes to read and the peer has not closed. The callback takes none of them exactly
      when the whole array is pending: the read window is then empty, `recv` is asked for zero bytes,
      and its zero result is taken for the end of the stream. server-honest.c then drops the
      connection with all its pending bytes; thread-honest.c only tidies its array. */
  lemma FullBufferReadsAsEndOfStream(c: Conn, bytes: seq<byte>, s: SendResult)
    requires Inv(c) && c.live && bytes != []
    ensures Step(c, Readable(Data(bytes), s)).received == c.received <==> c.size == TO_SEND_SIZE
    ensures s != SendFail ==>
      (!Step(c, Readable(Data(bytes), s)).live <==> c.eofDeletes && c.size == TO_SEND_SIZE)
    ensures c.size == TO_SEND_SIZE ==>
      Step(c, Readable(Data(bytes), s)) == Step(c, Readable(Eof, s))
  {
    CompactedKeepsPending(c);
    var k := Compacted(c);
    var got := Taken(bytes, Remaining(k));
    assert got == [] <==> c.size == TO_SEND_SIZE;
    if got != [] {
      var d := Stored(k, got);
      assert |d.received| > |c.received|;
      assert SendAfterRecv(d, s).received == d.received;
    }
  }

  /** The full buffer is reachable from a new connection: one full read whose send is refused. The
      next arrival then costs the peer every byte it is owed. */
  lemma FullBufferIsReachable(memory: seq<byte>, bytes: seq<byte>, more: seq<byte>)
    requires |memory| == TO_SEND_SIZE && |bytes| == TO_SEND_SIZE && more != []
    ensures
      var full := Step(Added(true, memory), Readable(Data(bytes), SendAgain));
      var lost := Step(full, Readable(Data(more), SendAgain));
      && full.live && full.size == TO_SEND_SIZE
      && !lost.live && lost.received == bytes && lost.sent == []
  {
    var c := Added(true, memory);
    AddedInv(true, memory);
    assert Taken(bytes, Remaining(Compacted(c))) == bytes;
    var full := Step(c, Readable(Data(bytes), SendAgain));
    StepKeepsInv(c, Readable(Data(bytes), SendAgain));
    FullBufferReadsAsEndOfStream(full, more, SendAgain);
  }

  // ----- Draining -----

  function Writables(ws: seq<SendResult>): (es: seq<Event>)
    ensures |es| == |ws|
    ensures forall i :: 0 <= i < |ws| ==> es[i] == Writable(ws[i])
  {
    seq(|ws|, i requires 0 <= i < |ws| => Writable(ws[i]))
  }

  /** With no more arrivals, write callbacks that each move at least one byte stop the write watcher
      after at most max(pending, 1) of them, and have then sent exactly the pending bytes. */
  lemma {:induction false} DrainStops(c: Conn, ws: seq<SendResult>)
    requires Inv(c) && c.live && SendWatcher in c.watchers
    requires forall i :: 0 <= i < |ws| ==> ws[i].Sent? && ws[i].n > 0
    requires |ws| >= c.size && |ws| >= 1
    ensures
      var d := Run(c, Writables(ws));
      && d.live && d.watchers == c.watchers - {SendWatcher}
      && d.sent == c.sent + Pending(c)
      && d.received == d.sent == c.received
    decreases |ws|
  {
    var es := Writables(ws);
    var d := Step(c, es[0]);
    StepKeepsInv(c, es[0]);
    assert es[1..] == Writables(ws[1..]);
    if d.size > 0 {
      DrainStops(d, ws[1..]);
    } else {
      assert d.sent == c.sent + Pending(c);
      IdleWritables(d, ws[1..]);
    }
  }

  lemma {:induction false} IdleWritables(c: Conn, ws: seq<SendResult>)
    requires Shape(c) && SendWatcher !in c.watchers
    ensures Run(c, Writables(ws)) == c
    decreases |ws|
  {
    if ws != [] {
      assert Writables(ws)[1..] == Writables(ws[1..]);
      IdleWritables(c, ws[1..]);
    }
  }

  lemma RefusedByteWaits(c: Conn, b: byte)
    requires Inv(c) && c.live && c.size == 0
    ensures
      var d := Step(c, Readable(Data([b]), SendAgain));
      Inv(d) && d.live && d.size == 1 && SendWatcher in d.watchers
  {
    StepKeepsInv(c, Readable(Data([b]), SendAgain));
    assert Taken([b], Remaining(Compacted(c))) == [b];
  }

  lemma OptimisticSendDrains(c: Conn, b: byte)
    requires Inv(c) && c.live && c.size == 1 && SendWatcher in c.watchers
    ensures
      var d := Step(c, Readable(Data([b]), Sent(2)));
      Inv(d) && d.live && d.size == 0 && SendWatcher in d.watchers
  {
    StepKeepsInv(c, Readable(Data([b]), Sent(2)));
    assert Taken([b], Remaining(Compacted(c))) == [b];
  }

  /** An active write watcher does not imply pending bytes: once the optimistic send has drained what
      an earlier refusal left, the watcher stays on with an empty buffer. One zero-length send
      removes it and changes nothing the peer can see. */
  lemma StaleWriteWatcher(c: Conn, b: byte, s: SendResult)
    requires Inv(c) && c.live && c.size == 0 && s.Sent?
    ensures
      var d := Step(Step(c, Readable(Data([b]), SendAgain)), Readable(Data([b]), Sent(2)));
      && d.live && d.size == 0 && SendWatcher in d.watchers
      && Step(d, Writable(s)) == d.(watchers := d.watchers - {SendWatcher})
  {
    RefusedByteWaits(c, b);
    var d := Step(c, Readable(Data([b]), SendAgain));
    OptimisticSendDrains(d, b);
    ZeroLengthSend(Step(d, Readable(Data([b]), Sent(2))), s.n);
  }

  predicate Stale(c: Conn) {
    c.live && c.size == 0 && SendWatcher in c.watchers
  }

  /** The callbacks that leave a stale write watcher: it must have been on before; a read callback
      that delivers something has then to send all that is pending, and any other one has to find the
      buffer empty already, unless it is the write callback, whose send succeeds and removes it. */
  lemma StaleExactly(c: Conn, e: Event)
    requires Inv(c) && c.live && Step(c, e).live
    ensures
      var got := if e.Readable? && e.r.Data? then Taken(e.r.bytes, Remaining(Compacted(c))) else [];
      Stale(Step(c, e)) <==>
        && SendWatcher in c.watchers
        && (if got != [] then e.s.Sent? && e.s.n >= c.size + |got|
            else c.size == 0 && !(e.Writable? && e.w.Sent?))
  {
    CompactedKeepsPending(c);
    if e.Readable? && e.r.Data? {
      var k := Compacted(c);
      var got := Taken(e.r.bytes, Remaining(k));
      assert got != [] ==> Step(c, e) == SendAfterRecv(Stored(k, got), e.s);
    }
  }

  lemma ZeroLengthSend(c: Conn, n: nat)
    requires Shape(c) && c.size == 0 && SendWatcher in c.watchers
    ensures Step(c, Writable(Sent(n))) == c.(watchers := c.watchers - {SendWatcher})
  {
    assert c.sent + Pending(c)[..0] == c.sent;
  }

  // ----- The order of the compaction copy -----

  /** The copy done in descending order of the index, which a `memcpy` on overlapping ranges is free
      to choose; `k` bytes are still to be moved. */
  function CopiedDownwards(buf: seq<byte>, beg: nat, k: nat): (r: seq<byte>)
    requires beg + k <= |buf|
    ensures |r| == |buf|
    decreases k
  {
    if k == 0 then buf else CopiedDownwards(buf[k - 1 := buf[beg + k - 1]], beg, k - 1)
  }

  lemma {:induction false} CopyLeavesAbove(buf: seq<byte>, beg: nat, k: nat)
    requires beg + k <= |buf|
    ensures forall j :: k <= j < |buf| ==> CopiedDownwards(buf, beg, k)[j] == buf[j]
    decreases k
  {
    if k > 0 {
      CopyLeavesAbove(buf[k - 1 := buf[beg + k - 1]], beg, k - 1);
    }
  }

  lemma {:induction false} DisjointCopy(buf: seq<byte>, beg: nat, k: nat, i: nat)
    requires i < k && beg + k <= |buf| && (beg == 0 || k <= beg)
    ensures CopiedDownwards(buf, beg, k)[i] == buf[beg + i]
    decreases k
  {
    var one := buf[k - 1 := buf[beg + k - 1]];
    if i == k - 1 {
      CopyLeavesAbove(one, beg, k - 1);
    } else {
      DisjointCopy(one, beg, k - 1, i);
    }
  }

  /** On overlapping ranges the first steps of a descending copy overwrite byte `size - 1` before it has
      been moved; where it should arrive, the last pending byte arrives a second time. */
  lemma {:induction false} OverlappingCopyLosesByte(buf: seq<byte>, beg: nat, size: nat, k: nat)
    requires 0 < beg < size && size - beg <= k <= size && beg + size <= |buf|
    requires k < size ==> buf[size - 1] == buf[beg + size - 1]
    ensures CopiedDownwards(buf, beg, k)[size - 1 - beg] == buf[beg + size - 1]
    decreases k
  {
    if k == size - beg {
      var one := buf[k - 1 := buf[beg + k - 1]];
      CopyLeavesAbove(one, beg, k - 1);
      assert beg + k - 1 == size - 1;
    } else {
      var one := buf[k - 1 := buf[beg + k - 1]];
      OverlappingCopyLosesByte(one, beg, size, k - 1);
    }
  }

  predicate DescendingCopyRight(buf: seq<byte>, beg: nat, size: nat)
    requires beg + size <= |buf|
  {
    CopiedDownwards(buf, beg, size)[..size] == MovedDown(buf, beg, size)[..size]
  }

  lemma OverlapWitness(buf: seq<byte>, beg: nat, size: nat)
    requires beg + size <= |buf| && 0 < beg < size
    requires buf[size - 1] != buf[beg + size - 1]
    ensures !DescendingCopyRight(buf, beg, size)
  {
    OverlappingCopyLosesByte(buf, beg, size, size);
    var i := size - 1 - beg;
    assert CopiedDownwards(buf, beg, size)[..size][i] == buf[beg + size - 1];
    assert MovedDown(buf, beg, size)[..size][i] == buf[beg..beg + size][i] == buf[size - 1];
  }

  lemma DisjointRight(buf: seq<byte>, beg: nat, size: nat)
    requires beg + size <= |buf| && (beg == 0 || size <= beg)
    ensures DescendingCopyRight(buf, beg, size)
  {
    forall i | 0 <= i < size ensures CopiedDownwards(buf, beg, size)[i] == buf[beg + i] {
      DisjointCopy(buf, beg, size, i);
    }
  }

  function MarkedMemory(total: nat, mark: nat): (buf: seq<byte>)
    requires mark < total
    ensures |buf| == total
    ensures forall i :: 0 <= i < total ==> (buf[i] != 0 <==> i == mark)
  {
    seq(total, i => if i == mark then 1 else 0)
  }

  /** The compaction survives a descending copy, for every content of the array, exactly when the two
      ranges coincide or do not overlap. In all other cases only an ascending copy is right. */
  lemma CopyOrderMatters(total: nat, beg: nat, size: nat)
    requires beg + size <= total
    ensures (forall buf: seq<byte> | |buf| == total :: DescendingCopyRight(buf, beg, size))
      <==> (beg == 0 || size <= beg)
  {
    if beg == 0 || size <= beg {
      forall buf: seq<byte> | |buf| == total ensures DescendingCopyRight(buf, beg, size) {
        DisjointRight(buf, beg, size);
      }
    } else {
      var marked := MarkedMemory(total, beg + size - 1);
      OverlapWitness(marked, beg, size);
    }
  }

  /** The overlap does happen: a full read of which one byte goes out leaves a connection whose next
      read callback moves 16383 bytes down by one. */
  lemma OverlapIsReachable(memory: seq<byte>, bytes: seq<byte>)
    requires |memory| == TO_SEND_SIZE && |bytes| == TO_SEND_SIZE
    ensures
      var c := Step(Added(true, memory), Readable(Data(bytes), Sent(1)));
      Inv(c) && c.live && Remaining(c) < COMPACT_BELOW && c.beg == 1 && c.size == TO_SEND_SIZE - 1
  {
    var c := Added(true, memory);
    AddedInv(true, memory);
    StepKeepsInv(c, Readable(Data(bytes), Sent(1)));
    assert Taken(bytes, Remaining(Compacted(c))) == bytes;
  }

  // ----- The program -----

  /** `memcpy(c->to_send, c->to_send_beg, c->to_send_size)` as the downward move it is meant to be: an
      ascending copy, which is right for overlapping ranges too. */
  method MoveDown(buf: array<byte>, beg: nat, size: nat)
    requires beg + size <= buf.Length
    modifies buf
    ensures forall i :: 0 <= i < size ==> buf[i] == old(buf[beg + i])
    ensures forall i :: size <= i < buf.Length ==> buf[i] == old(buf[i])
    ensures buf[..] == MovedDown(old(buf[..]), beg, size)
  {
    var i := 0;
    while i < size
      invariant 0 <= i <= size
      invariant forall k :: 0 <= k < i ==> buf[k] == old(buf[beg + k])
      invariant forall k :: i <= k < buf.Length ==> buf[k] == old(buf[k])
    {
      buf[i] := buf[beg + i];
      i := i + 1;
    }
  }

  /** `struct echo_client` with its callbacks. The ghost fields are the history of its value. */
  class EchoClient {
    const eofDeletes: bool
    const toSend: array<byte>
    var toSendBeg: nat
    var toSendSize: nat
    var watchers: set<Watcher>
    var live: bool
    ghost var restarts: nat
    ghost var received: seq<byte>
    ghost var sent: seq<byte>

    ghost function State(): Conn
      reads this, toSend
    {
      Conn(eofDeletes, toSend[..], toSendBeg, toSendSize, watchers, live, restarts, received, sent)
    }

    ghost predicate Valid()
      reads this, toSend
    {
      Inv(State())
    }

    /** echo_client_add */
    constructor (eofDeletes: bool)
      ensures Valid() && fresh(toSend)
      ensures State() == Added(eofDeletes, toSend[..])
    {
      this.eofDeletes := eofDeletes;
      toSend := new byte[TO_SEND_SIZE];
      toSendBeg, toSendSize := 0, 0;
      watchers := {RecvWatcher, TimeoutWatcher};
      live := true;
      restarts, received, sent := 0, [], [];
    }

    /** echo_client_del */
    method Delete()
      modifies this`watchers, this`live
      ensures State() == Deleted(old(State()))
    {
      watchers := {};
      live := false;
    }

    method TimeoutCallback()
      requires Valid() && live
      modifies this
      ensures Valid() && State() == Step(old(State()), Expire)
    {
      StepKeepsInv(State(), Expire);
      Delete();
    }

    /** The kernel copies what it has into the window that starts after the pending bytes. */
    method Recv(bytes: seq<byte>) returns (got: seq<byte>)
      requires Shape(State())
      modifies this`toSendSize, this`received, toSend
      ensures got == Taken(bytes, Remaining(old(State())))
      ensures State() == Stored(old(State()), got)
    {
      got := Taken(bytes, toSend.Length - (toSendBeg + toSendSize));
      var end := toSendBeg + toSendSize;
      forall i | 0 <= i < |got| {
        toSend[end + i] := got[i];
      }
      toSendSize := toSendSize + |got|;
      received := received + got;
    }

    /** Advance past what the kernel accepted. */
    method Accepted(n: nat)
      requires Shape(State()) && n <= toSendSize
      modifies this`toSendBeg, this`toSendSize, this`sent
      ensures State() == Emitted(old(State()), n)
    {
      sent := sent + Pending(State())[..n];
      toSendBeg := toSendBeg + n;
      toSendSize := toSendSize - n;
    }

    method SendCallback(s: SendResult)
      requires Valid() && live && SendWatcher in watchers
      modifies this
      ensures Valid() && State() == Step(old(State()), Writable(s))
    {
      StepKeepsInv(State(), Writable(s));
      match s
      case SendAgain =>
      case SendFail => Delete();
      case Sent(n) =>
        Accepted(Min(n, toSendSize));
        if toSendSize > 0 {
          return;
        }
        watchers := watchers - {SendWatcher};
    }

    method RecvCallback(r: RecvResult, s: SendResult)
      requires Valid() && live
      modifies this, toSend
      ensures Valid() && State() == Step(old(State()), Readable(r, s))
    {
      StepKeepsInv(State(), Readable(r, s));
      CompactWhenShort();
      match r
      case RecvAgain => restarts := restarts + 1;
      case RecvFail => Delete();
      case Eof =>
        if eofDeletes {
          Delete();
        }
      case Data(bytes) =>
        var got := Recv(bytes);
        if got == [] {
          StoredNothing(Compacted(old(State())));
          if eofDeletes {
            Delete();
          }
          return;
        }
        OptimisticSend(s);
    }

    /** The test on `rem_size` and the compaction. */
    method CompactWhenShort()
      requires Shape(State())
      modifies this`toSendBeg, toSend
      ensures State() == Compacted(old(State()))
    {
      var remSize := toSend.Length - (toSendBeg + toSendSize);
      if remSize < COMPACT_BELOW {
        MoveDown(toSend, toSendBeg, toSendSize);
        toSendBeg := 0;
      }
    }

    method OptimisticSend(s: SendResult)
      requires Shape(State())
      modifies this
      ensures State() == SendAfterRecv(old(State()), s)
    {
      match s
      case SendAgain => watchers := watchers + {SendWatcher};
      case SendFail => Delete();
      case Sent(n) =>
        Accepted(Min(n, toSendSize));
        if toSendSize > 0 {
          watchers := watchers + {SendWatcher};
        }
    }
  }
}
