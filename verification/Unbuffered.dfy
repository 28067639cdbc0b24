/** The unbuffered server of server.c: each chunk read is sent once, and what the kernel does not
    accept of it is forgotten. */
module Unbuffered {
  import opened Net
  import opened EchoSpec
  import SlidingBuffer

  const BUF_SIZE: nat := 4096

  /** A chunk as read, and how many of its bytes were accepted by the one send. */
  datatype Chunk = Chunk(bytes: seq<byte>, kept: nat)

  /** History: the chunks, the two byte streams, and how often the timeout has been started again. */
  datatype Plain = Plain(
    live: bool,
    restarts: nat,
    chunks: seq<Chunk>,
    received: seq<byte>,
    sent: seq<byte>)

  function Added(): Plain {
    Plain(true, 0, [], [], [])
  }

  function Step(p: Plain, e: Event): Plain {
    if !p.live then p else
    match e
    case Writable(_) => p
    case Expire => p.(live := false)
    case Readable(r, s) =>
      match r
      case RecvAgain => p.(restarts := p.restarts + 1)
      case RecvFail => p.(live := false)
      case Eof => p.(live := false)
      case Data(bytes) =>
        var got := Taken(bytes, BUF_SIZE);
        if got == [] then p.(live := false) else Echoed(p, got, s)
  }

  /** A refused send is an error here: the connection is deleted. Any other one, even a short one,
      starts the timeout again. */
  function Echoed(p: Plain, got: seq<byte>, s: SendResult): Plain {
    var n := if s.Sent? then Min(s.n, |got|) else 0;
    Plain(
      s.Sent?,
      if s.Sent? then p.restarts + 1 else p.restarts,
      p.chunks + [Chunk(got, n)],
      p.received + got,
      p.sent + got[..n])
  }

  function Run(p: Plain, es: seq<Event>): Plain
    decreases |es|
  {
    if es == [] then p else Run(Step(p, es[0]), es[1..])
  }

  function Whole(chunks: seq<Chunk>): seq<byte> {
    if chunks == [] then [] else Whole(chunks[..|chunks| - 1]) + chunks[|chunks| - 1].bytes
  }

  function Heads(chunks: seq<Chunk>): seq<byte>
    requires forall c :: c in chunks ==> c.kept <= |c.bytes|
  {
    if chunks == [] then [] else
    var c := chunks[|chunks| - 1];
    Heads(chunks[..|chunks| - 1]) + c.bytes[..c.kept]
  }

  /** The output is the concatenation of a prefix of each chunk read, in order. */
  ghost predicate Inv(p: Plain) {
    && (forall c :: c in p.chunks ==> 0 < |c.bytes| <= BUF_SIZE && c.kept <= |c.bytes|)
    && p.received == Whole(p.chunks)
    && p.sent == Heads(p.chunks)
  }

  lemma StepKeepsInv(p: Plain, e: Event)
    requires Inv(p)
    ensures Inv(Step(p, e))
  {
    var q := Step(p, e);
    if q.chunks != p.chunks {
      assert q.chunks[..|q.chunks| - 1] == p.chunks;
    }
  }

  lemma {:induction false} RunKeepsInv(p: Plain, es: seq<Event>)
    requires Inv(p)
    ensures Inv(Run(p, es))
    decreases |es|
  {
    if es != [] {
      StepKeepsInv(p, es[0]);
      RunKeepsInv(Step(p, es[0]), es[1..]);
    }
  }

  /** From a new connection on, the output is that concatenation, and no chunk is empty. */
  lemma OutputIsHeads(es: seq<Event>)
    ensures
      var p := Run(Added(), es);
      && (forall c :: c in p.chunks ==> 0 < |c.bytes| <= BUF_SIZE && c.kept <= |c.bytes|)
      && p.received == Whole(p.chunks) && p.sent == Heads(p.chunks)
  {
    RunKeepsInv(Added(), es);
  }

  predicate NoneCut(chunks: seq<Chunk>) {
    forall c :: c in chunks ==> c.kept == |c.bytes|
  }

  lemma {:induction false} HeadsAreShorter(chunks: seq<Chunk>)
    requires forall c :: c in chunks ==> c.kept <= |c.bytes|
    ensures |Heads(chunks)| <= |Whole(chunks)|
    ensures |Heads(chunks)| == |Whole(chunks)| ==> NoneCut(chunks)
    ensures NoneCut(chunks) ==> Heads(chunks) == Whole(chunks)
  {
    if chunks != [] {
      var n := |chunks| - 1;
      HeadsAreShorter(chunks[..n]);
      assert chunks == chunks[..n] + [chunks[n]];
    }
  }

  /** What deletes a connection: its timeout, the end of the stream or a read of nothing, an error of the
      read, and any send that fails or is refused. A chunk has at most 4096 bytes, and of it goes out what
      its one send accepts. */
  lemma StepExactly(p: Plain, e: Event)
    requires p.live
    ensures
      var d := Step(p, e);
      var got := if e.Readable? && e.r.Data? then Taken(e.r.bytes, 4096) else [];
      && (!d.live <==>
        || e == Expire
        || (e.Readable? && (e.r.Eof? || e.r.RecvFail? || (e.r.Data? && (e.r.bytes == [] || !e.s.Sent?)))))
      && d.received == p.received + got
      && d.sent == p.sent + got[..if got != [] && e.s.Sent? then Min(e.s.n, |got|) else 0]
      && (d.restarts > p.restarts <==> e.Readable? && d.live)
  {
  }

  // ----- When the service is met -----

  /** The callback reads a chunk. */
  predicate Reads(p: Plain, e: Event) {
    p.live && e.Readable? && e.r.Data? && e.r.bytes != []
  }

  predicate WholeSend(e: Event)
    requires e.Readable? && e.r.Data?
  {
    e.s.Sent? && e.s.n >= |Taken(e.r.bytes, BUF_SIZE)|
  }

  /** Every chunk read in this run meets a send that accepts all of it. */
  predicate NoShortSends(p: Plain, es: seq<Event>)
    decreases |es|
  {
    es == [] ||
    ((Reads(p, es[0]) ==> WholeSend(es[0])) && NoShortSends(Step(p, es[0]), es[1..]))
  }

  lemma StepCuts(p: Plain, e: Event)
    requires Inv(p)
    ensures NoneCut(Step(p, e).chunks) <==> NoneCut(p.chunks) && (Reads(p, e) ==> WholeSend(e))
  {
    if Reads(p, e) {
      var q := Step(p, e);
      var last := q.chunks[|p.chunks|];
      assert q.chunks == p.chunks + [last];
      assert last.kept == |last.bytes| <==> WholeSend(e);
    }
  }

  lemma {:induction false} CutsOfRun(p: Plain, es: seq<Event>)
    requires Inv(p)
    ensures NoneCut(Run(p, es).chunks) <==> NoneCut(p.chunks) && NoShortSends(p, es)
    decreases |es|
  {
    if es != [] {
      StepCuts(p, es[0]);
      StepKeepsInv(p, es[0]);
      CutsOfRun(Step(p, es[0]), es[1..]);
    }
  }

  /** All that was received has been sent exactly on the runs without a short send. */
  lemma EchoesExactlyWithoutShortSends(es: seq<Event>)
    ensures
      var p := Run(Added(), es);
      p.sent == p.received <==> NoShortSends(Added(), es)
  {
    RunKeepsInv(Added(), es);
    HeadsAreShorter(Run(Added(), es).chunks);
    CutsOfRun(Added(), es);
  }

  /** One short send in the middle is enough to send bytes that are not even a prefix of the input. */
  lemma ShortSendBreaksEcho(a: byte, b: byte, c: byte)
    requires b != c
    ensures
      var p := Run(Added(), [Readable(Data([a, b]), Sent(1)), Readable(Data([c]), Sent(1))]);
      p.live && p.received == [a, b, c] && p.sent == [a, c] && !(p.sent <= p.received)
  {
    var e0, e1 := Readable(Data([a, b]), Sent(1)), Readable(Data([c]), Sent(1));
    var p1 := Step(Added(), e0);
    var p2 := Step(p1, e1);
    assert [e0, e1][1..] == [e1];
    assert [e1][1..] == [];
    assert Taken([a, b], BUF_SIZE) == [a, b];
    assert Taken([c], BUF_SIZE) == [c];
    assert Run(Added(), [e0, e1]) == Run(p1, [e1]) == Run(p2, []) == p2;
    assert p2.received == [a, b, c];
    assert p2.sent == [a, c];
    assert p2.sent[1] != p2.received[1];
  }

  /** No send of this run moves a byte. */
  predicate NothingSent(p: Plain, es: seq<Event>)
    decreases |es|
  {
    es == [] ||
    ((Reads(p, es[0]) ==> !es[0].s.Sent? || es[0].s.n == 0) && NothingSent(Step(p, es[0]), es[1..]))
  }

  /** Nothing is sent after the first short send. */
  predicate SilentAfterCut(p: Plain, es: seq<Event>)
    decreases |es|
  {
    if es == [] then true
    else if Reads(p, es[0]) && !WholeSend(es[0]) then NothingSent(Step(p, es[0]), es[1..])
    else SilentAfterCut(Step(p, es[0]), es[1..])
  }

  /** The same event, but for the values of the bytes that it delivers. */
  predicate SameButContent(e: Event, f: Event) {
    if e.Readable? && e.r.Data?
    then f.Readable? && f.r.Data? && |f.r.bytes| == |e.r.bytes| && f.s == e.s
    else f == e
  }

  predicate SameShape(es: seq<Event>, fs: seq<Event>) {
    |es| == |fs| && forall i :: 0 <= i < |es| ==> SameButContent(es[i], fs[i])
  }

  lemma {:induction false} StreamsGrow(p: Plain, es: seq<Event>)
    ensures p.received <= Run(p, es).received && p.sent <= Run(p, es).sent
    decreases |es|
  {
    if es != [] {
      var q := Step(p, es[0]);
      StreamsGrow(q, es[1..]);
      Prefixes(p.received, q.received, Run(p, es).received);
      Prefixes(p.sent, q.sent, Run(p, es).sent);
    }
  }

  lemma {:induction false} SentNothing(p: Plain, es: seq<Event>)
    ensures NothingSent(p, es) <==> Run(p, es).sent == p.sent
    decreases |es|
  {
    if es != [] {
      var q := Step(p, es[0]);
      SentNothing(q, es[1..]);
      StreamsGrow(q, es[1..]);
      assert p.sent <= q.sent;
      assert q.sent == p.sent <==> (Reads(p, es[0]) ==> !es[0].s.Sent? || es[0].s.n == 0);
    }
  }

  lemma {:induction false} ShapeDecides(p: Plain, q: Plain, es: seq<Event>, fs: seq<Event>)
    requires p.live == q.live && SameShape(es, fs)
    ensures NothingSent(p, es) == NothingSent(q, fs)
    ensures SilentAfterCut(p, es) == SilentAfterCut(q, fs)
    decreases |es|
  {
    if es != [] {
      assert SameButContent(es[0], fs[0]);
      forall i | 0 <= i < |es| - 1 ensures SameButContent(es[1..][i], fs[1..][i]) {
        assert SameButContent(es[i + 1], fs[i + 1]);
      }
      ShapeDecides(Step(p, es[0]), Step(q, fs[0]), es[1..], fs[1..]);
    }
  }

  lemma {:induction false} SilentRunIsPrefix(p: Plain, es: seq<Event>)
    requires p.sent == p.received && SilentAfterCut(p, es)
    ensures Run(p, es).sent <= Run(p, es).received
    decreases |es|
  {
    if es != [] {
      var q := Step(p, es[0]);
      assert q.sent <= q.received;
      if Reads(p, es[0]) && !WholeSend(es[0]) {
        SentNothing(q, es[1..]);
        StreamsGrow(q, es[1..]);
        Prefixes(q.sent, q.received, Run(p, es).received);
      } else {
        SilentRunIsPrefix(q, es[1..]);
      }
    }
  }

  function Filled(e: Event, v: byte): (f: Event)
    ensures SameButContent(e, f)
  {
    if e.Readable? && e.r.Data? then Readable(Data(seq(|e.r.bytes|, _ => v)), e.s) else e
  }

  function FilledAll(es: seq<Event>, v: byte): (fs: seq<Event>)
    ensures SameShape(es, fs)
  {
    seq(|es|, i requires 0 <= i < |es| => Filled(es[i], v))
  }

  /** Zeros up to the first short send, ones behind it. */
  function Marked(p: Plain, es: seq<Event>): (fs: seq<Event>)
    ensures SameShape(es, fs)
    decreases |es|
  {
    if es == [] then []
    else if Reads(p, es[0]) && !WholeSend(es[0]) then [Filled(es[0], 0)] + FilledAll(es[1..], 1)
    else [Filled(es[0], 0)] + Marked(Step(p, Filled(es[0], 0)), es[1..])
  }

  lemma {:induction false} OnlyFilling(p: Plain, es: seq<Event>, v: byte)
    ensures
      var out := Run(p, FilledAll(es, v)).sent;
      p.sent <= out && forall i :: |p.sent| <= i < |out| ==> out[i] == v
    decreases |es|
  {
    if es != [] {
      var fs := FilledAll(es, v);
      assert fs[1..] == FilledAll(es[1..], v);
      var q := Step(p, fs[0]);
      assert p.sent <= q.sent && forall i :: |p.sent| <= i < |q.sent| ==> q.sent[i] == v;
      OnlyFilling(q, es[1..], v);
      Prefixes(p.sent, q.sent, Run(p, fs).sent);
    }
  }

  /** What goes out after the cut stands where a lost zero should have been. */
  lemma MarkedCut(p: Plain, e: Event, es: seq<Event>)
    requires p.sent == p.received && Reads(p, e) && !WholeSend(e)
    requires !NothingSent(Step(p, e), es)
    ensures
      var q := Run(Step(p, Filled(e, 0)), FilledAll(es, 1));
      !(q.sent <= q.received)
  {
    var f, fs := Filled(e, 0), FilledAll(es, 1);
    var p1 := Step(p, f);
    var q := Run(p1, fs);
    ShapeDecides(Step(p, e), p1, es, fs);
    SentNothing(p1, fs);
    OnlyFilling(p1, es, 1);
    StreamsGrow(p1, fs);
    var k := |p1.sent|;
    assert k < |p1.received| && p1.received[k] == 0;
    assert q.received[k] == 0 && q.sent[k] == 1;
  }

  lemma {:induction false} MarkedBreaks(p: Plain, es: seq<Event>)
    requires p.sent == p.received && !SilentAfterCut(p, es)
    ensures
      var q := Run(p, Marked(p, es));
      !(q.sent <= q.received)
    decreases |es|
  {
    var f := Filled(es[0], 0);
    assert Marked(p, es)[0] == f;
    if Reads(p, es[0]) && !WholeSend(es[0]) {
      assert Marked(p, es)[1..] == FilledAll(es[1..], 1);
      MarkedCut(p, es[0], es[1..]);
    } else {
      assert Marked(p, es)[1..] == Marked(Step(p, f), es[1..]);
      assert SameShape(es[1..], es[1..]);
      ShapeDecides(Step(p, es[0]), Step(p, f), es[1..], es[1..]);
      MarkedBreaks(Step(p, f), es[1..]);
    }
  }

  ghost predicate MeetsService(es: seq<Event>) {
    Served(Run(Added(), es).received, Run(Added(), es).sent)
  }

  /** With the lengths and outcomes of the reads and sends given: the streams are those of a run of the
      echo service for every content of the reads, if and only if nothing goes out after the first
      short send. */
  lemma MeetsServiceIff(es: seq<Event>)
    ensures (forall fs | SameShape(es, fs) :: MeetsService(fs)) <==> SilentAfterCut(Added(), es)
  {
    if SilentAfterCut(Added(), es) {
      forall fs | SameShape(es, fs) ensures MeetsService(fs) {
        ShapeDecides(Added(), Added(), es, fs);
        SilentRunIsPrefix(Added(), fs);
        ServedIff(Run(Added(), fs).received, Run(Added(), fs).sent);
      }
    } else {
      var fs := Marked(Added(), es);
      MarkedBreaks(Added(), es);
      ServedIff(Run(Added(), fs).received, Run(Added(), fs).sent);
    }
  }

  // ----- Against the buffered server -----

  /** What the buffered server reads in this callback. */
  function Delivered(c: SlidingBuffer.Conn, e: Event): seq<byte>
    requires SlidingBuffer.Shape(c)
  {
    if c.live && e.Readable? && e.r.Data?
    then Taken(e.r.bytes, SlidingBuffer.Remaining(SlidingBuffer.Compacted(c)))
    else []
  }

  /** Every send in a read callback of this run accepts all that is pending. */
  predicate SendsComplete(c: SlidingBuffer.Conn, es: seq<Event>)
    requires SlidingBuffer.Shape(c)
    decreases |es|
  {
    es == [] ||
    (var got := Delivered(c, es[0]);
    && (got != [] ==> es[0].s.Sent? && es[0].s.n >= c.size + |got|)
    && SendsComplete(SlidingBuffer.Step(c, es[0]), es[1..]))
  }

  predicate Unused(c: SlidingBuffer.Conn) {
    c.size == 0 && SlidingBuffer.SendWatcher !in c.watchers
  }

  /** After every callback of the run the buffer is empty and the write watcher is off. */
  predicate NeverUsed(c: SlidingBuffer.Conn, es: seq<Event>)
    requires SlidingBuffer.Shape(c)
    decreases |es|
  {
    Unused(c) && (es == [] || NeverUsed(SlidingBuffer.Step(c, es[0]), es[1..]))
  }

  lemma StaysUnused(c: SlidingBuffer.Conn, e: Event)
    requires SlidingBuffer.Inv(c) && Unused(c)
    ensures Unused(SlidingBuffer.Step(c, e)) <==>
      (Delivered(c, e) != [] ==> e.s.Sent? && e.s.n >= |Delivered(c, e)|)
  {
    SlidingBuffer.CompactedKeepsPending(c);
    var got := Delivered(c, e);
    if got != [] {
      var d := SlidingBuffer.Stored(SlidingBuffer.Compacted(c), got);
      assert SlidingBuffer.Step(c, e) == SlidingBuffer.SendAfterRecv(d, e.s);
    }
  }

  /** The buffer and the write watcher of the buffered server are never used in a run exactly when
      every send after a read is complete, and then all that was received has been sent. */
  lemma {:induction false} NeverUsedIff(c: SlidingBuffer.Conn, es: seq<Event>)
    requires SlidingBuffer.Inv(c) && Unused(c)
    ensures NeverUsed(c, es) <==> SendsComplete(c, es)
    ensures SendsComplete(c, es) ==>
      SlidingBuffer.Run(c, es).sent == SlidingBuffer.Run(c, es).received
    decreases |es|
  {
    if es == [] {
      assert SlidingBuffer.Pending(c) == [];
    } else {
      StaysUnused(c, es[0]);
      SlidingBuffer.StepKeepsInv(c, es[0]);
      if Unused(SlidingBuffer.Step(c, es[0])) {
        NeverUsedIff(SlidingBuffer.Step(c, es[0]), es[1..]);
      }
    }
  }

  predicate Arrivals(es: seq<Event>) {
    forall e :: e in es ==> e.Readable? && e.r.Data? && e.r.bytes != []
  }

  lemma BufferedArrival(c: SlidingBuffer.Conn, e: Event)
    requires SlidingBuffer.Inv(c) && Unused(c) && c.live && Arrivals([e]) && SendsComplete(c, [e])
    ensures
      var d := SlidingBuffer.Step(c, e);
      Unused(d) && d.live && |d.received| > |c.received|
  {
    assert e in [e];
    StaysUnused(c, e);
    SlidingBuffer.CompactedKeepsPending(c);
    var got := Delivered(c, e);
    var d := SlidingBuffer.Stored(SlidingBuffer.Compacted(c), got);
    assert SlidingBuffer.Step(c, e) == SlidingBuffer.SendAfterRecv(d, e.s);
    assert |d.received| == |c.received| + |got|;
  }

  lemma {:induction false} BufferedArrivals(c: SlidingBuffer.Conn, es: seq<Event>)
    requires SlidingBuffer.Inv(c) && Unused(c) && c.live && Arrivals(es) && SendsComplete(c, es)
    ensures
      var d := SlidingBuffer.Run(c, es);
      d.live && |d.received| >= |c.received| + |es|
    decreases |es|
  {
    if es != [] {
      assert es[0] in es;
      BufferedArrival(c, es[0]);
      SlidingBuffer.StepKeepsInv(c, es[0]);
      BufferedArrivals(SlidingBuffer.Step(c, es[0]), es[1..]);
    }
  }

  lemma {:induction false} PlainArrivals(p: Plain, es: seq<Event>)
    requires p.live && Arrivals(es) && NoShortSends(p, es)
    ensures Run(p, es).live && |Run(p, es).received| >= |p.received| + |es|
    decreases |es|
  {
    if es != [] {
      assert es[0] in es;
      PlainArrivals(Step(p, es[0]), es[1..]);
    }
  }

  /** Complete sends make the buffer needless. Take any run of the buffered server and any run of the
      unbuffered one, each cut into its own turns, but reading from the same stream: each has sent all
      it has received, a prefix of the stream; and while only bytes arrive both stay connected
      and every turn of either echoes at least one more byte. */
  lemma CompleteSendsNeedNoBuffer(
    eofDeletes: bool, memory: seq<byte>, es: seq<Event>, fs: seq<Event>, input: seq<byte>)
    requires |memory| == SlidingBuffer.TO_SEND_SIZE
    requires SendsComplete(SlidingBuffer.Added(eofDeletes, memory), es) && NoShortSends(Added(), fs)
    requires SlidingBuffer.Run(SlidingBuffer.Added(eofDeletes, memory), es).received <= input
    requires Run(Added(), fs).received <= input
    ensures
      var d, q := SlidingBuffer.Run(SlidingBuffer.Added(eofDeletes, memory), es), Run(Added(), fs);
      && d.sent == d.received && q.sent == q.received
      && Comparable(d.sent, q.sent)
      && (Arrivals(es) ==> d.live && |d.sent| >= |es|)
      && (Arrivals(fs) ==> q.live && |q.sent| >= |fs|)
  {
    var c := SlidingBuffer.Added(eofDeletes, memory);
    SlidingBuffer.AddedInv(eofDeletes, memory);
    NeverUsedIff(c, es);
    EchoesExactlyWithoutShortSends(fs);
    PrefixesOfOneStream(SlidingBuffer.Run(c, es).sent, Run(Added(), fs).sent, input);
    if Arrivals(es) {
      BufferedArrivals(c, es);
    }
    if Arrivals(fs) {
      PlainArrivals(Added(), fs);
    }
  }

  predicate SmallOffers(es: seq<Event>) {
    forall e :: e in es && e.Readable? && e.r.Data? ==> |e.r.bytes| <= SlidingBuffer.COMPACT_BELOW
  }

  /** Between callbacks neither server holds anything and both have the same history. */
  ghost predicate InStep(c: SlidingBuffer.Conn, p: Plain) {
    && SlidingBuffer.Inv(c) && Unused(c) && c.eofDeletes
    && c.live == p.live && c.received == p.received == p.sent
  }

  lemma SameRead(c: SlidingBuffer.Conn, p: Plain, e: Event)
    requires InStep(c, p) && Reads(p, e) && WholeSend(e) && |e.r.bytes| <= SlidingBuffer.COMPACT_BELOW
    ensures Delivered(c, e) == e.r.bytes && InStep(SlidingBuffer.Step(c, e), Step(p, e))
  {
    SlidingBuffer.StepKeepsInv(c, e);
    SlidingBuffer.CompactedKeepsPending(c);
    StaysUnused(c, e);
    var d := SlidingBuffer.Stored(SlidingBuffer.Compacted(c), e.r.bytes);
    assert SlidingBuffer.Step(c, e) == SlidingBuffer.SendAfterRecv(d, e.s);
    SlidingBuffer.SendKeepsInput(d, e.s);
  }

  lemma SameOther(c: SlidingBuffer.Conn, p: Plain, e: Event)
    requires InStep(c, p) && !Reads(p, e)
    ensures Delivered(c, e) == [] && InStep(SlidingBuffer.Step(c, e), Step(p, e))
  {
    SlidingBuffer.StepKeepsInv(c, e);
    StaysUnused(c, e);
  }

  /** For offers within the smallest read window the two servers are turn by turn the same: on the same
      events, with complete sends, both have read, sent and survived the same. */
  lemma {:induction false} SmallOffersSameRun(c: SlidingBuffer.Conn, p: Plain, es: seq<Event>)
    requires InStep(c, p) && SmallOffers(es) && NoShortSends(p, es)
    ensures SendsComplete(c, es) && InStep(SlidingBuffer.Run(c, es), Run(p, es))
    decreases |es|
  {
    if es != [] {
      assert es[0] in es;
      if Reads(p, es[0]) {
        SameRead(c, p, es[0]);
      } else {
        SameOther(c, p, es[0]);
      }
      SmallOffersSameRun(SlidingBuffer.Step(c, es[0]), Step(p, es[0]), es[1..]);
    }
  }

  // ----- The program -----

  class UnbufferedClient {
    var live: bool
    ghost var restarts: nat
    ghost var chunks: seq<Chunk>
    ghost var received: seq<byte>
    ghost var sent: seq<byte>

    ghost function State(): Plain
      reads this
    {
      Plain(live, restarts, chunks, received, sent)
    }

    ghost predicate Valid()
      reads this
    {
      Inv(State())
    }

    constructor ()
      ensures Valid() && State() == Added()
    {
      live := true;
      restarts, chunks, received, sent := 0, [], [], [];
    }

    method RecvCallback(r: RecvResult, s: SendResult)
      requires Valid() && live
      modifies this
      ensures Valid() && State() == Step(old(State()), Readable(r, s))
    {
      StepKeepsInv(State(), Readable(r, s));
      match r
      case RecvAgain => restarts := restarts + 1;
      case RecvFail => live := false;
      case Eof => live := false;
      case Data(bytes) =>
        var buf := new byte[BUF_SIZE];
        var got := Taken(bytes, buf.Length);
        if got == [] {
          live := false;
          return;
        }
        forall i | 0 <= i < |got| {
          buf[i] := got[i];
        }
        assert buf[..|got|] == got;
        Echo(buf, |got|, s);
    }

    /** The one send of what has been read into the buffer. */
    method Echo(buf: array<byte>, nb: nat, s: SendResult)
      requires live && nb <= buf.Length
      modifies this
      ensures State() == Echoed(old(State()), buf[..nb], s)
    {
      var n := if s.Sent? then Min(s.n, nb) else 0;
      received := received + buf[..nb];
      sent := sent + buf[..n];
      assert buf[..n] == buf[..nb][..n];
      chunks := chunks + [Chunk(buf[..nb], n)];
      if s.Sent? {
        restarts := restarts + 1;
      } else {
        live := false;
      }
    }
  }
}
