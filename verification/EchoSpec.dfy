/** The TCP Based Echo Service of RFC 862 as a FIFO byte queue: what arrives is queued, what leaves
    is taken from the head of the queue, and closing stops both. Nothing else can happen. */
module EchoSpec {
  import opened Net

  /** `received` and `sent` record the two byte streams; `queue` is what is still owed to the peer. */
  datatype Echo = Echo(received: seq<byte>, sent: seq<byte>, queue: seq<byte>, open: bool)

  datatype Action = Receive(bytes: seq<byte>) | Send(count: nat) | Close

  const INITIAL := Echo([], [], [], true)

  function Act(e: Echo, a: Action): Echo {
    if !e.open then e else
    match a
    case Receive(bytes) => e.(received := e.received + bytes, queue := e.queue + bytes)
    case Send(count) =>
      var n := Min(count, |e.queue|);
      e.(sent := e.sent + e.queue[..n], queue := e.queue[n..])
    case Close => e.(open := false)
  }

  function Perform(e: Echo, acts: seq<Action>): Echo
    decreases |acts|
  {
    if acts == [] then e else Perform(Act(e, acts[0]), acts[1..])
  }

  /** Every byte received is either sent or still queued, in the order of arrival. */
  ghost predicate Fifo(e: Echo) {
    e.received == e.sent + e.queue
  }

  lemma {:induction false} PerformKeepsFifo(e: Echo, acts: seq<Action>)
    requires Fifo(e)
    ensures Fifo(Perform(e, acts))
    ensures e.received <= Perform(e, acts).received
    ensures e.sent <= Perform(e, acts).sent
    ensures Perform(e, acts).open ==> e.open
    decreases |acts|
  {
    if acts != [] {
      var f := Act(e, acts[0]);
      assert Fifo(f) && e.sent <= f.sent;
      PerformKeepsFifo(f, acts[1..]);
      Prefixes(e.sent, f.sent, Perform(e, acts).sent);
      Prefixes(e.received, f.received, Perform(e, acts).received);
    }
  }

  lemma Prefixes<T>(a: seq<T>, b: seq<T>, c: seq<T>)
    requires a <= b <= c
    ensures a <= c
  {
  }

  lemma PerformShort(e: Echo, acts: seq<Action>)
    requires |acts| <= 1
    ensures Perform(e, acts) == if acts == [] then e else Act(e, acts[0])
  {
  }

  lemma {:induction false} PerformAppend(e: Echo, xs: seq<Action>, ys: seq<Action>)
    ensures Perform(e, xs + ys) == Perform(Perform(e, xs), ys)
    decreases |xs|
  {
    if xs == [] {
      assert xs + ys == ys;
    } else {
      assert (xs + ys)[1..] == xs[1..] + ys;
      PerformAppend(Act(e, xs[0]), xs[1..], ys);
    }
  }

  /** Two streams that some run of the service has. */
  ghost predicate Served(received: seq<byte>, sent: seq<byte>) {
    exists acts :: Perform(INITIAL, acts).received == received && Perform(INITIAL, acts).sent == sent
  }

  /** The service can have received one stream and sent another exactly when the latter is a prefix of
      the former. */
  lemma ServedIff(received: seq<byte>, sent: seq<byte>)
    ensures Served(received, sent) <==> sent <= received
  {
    if Served(received, sent) {
      var acts :| Perform(INITIAL, acts).received == received && Perform(INITIAL, acts).sent == sent;
      PerformKeepsFifo(INITIAL, acts);
    }
    if sent <= received {
      var acts := [Receive(received)] + [Send(|sent|)];
      PerformAppend(INITIAL, [Receive(received)], [Send(|sent|)]);
      PerformShort(INITIAL, [Receive(received)]);
      PerformShort(Act(INITIAL, Receive(received)), [Send(|sent|)]);
      assert Perform(INITIAL, acts).received == received && Perform(INITIAL, acts).sent == sent;
    }
  }

  /** Two outputs are comparable when one is a prefix of the other. */
  ghost predicate Comparable(a: seq<byte>, b: seq<byte>) {
    a <= b || b <= a
  }

  /** Two prefixes of one stream are comparable. */
  lemma PrefixesOfOneStream(a: seq<byte>, b: seq<byte>, s: seq<byte>)
    requires a <= s && b <= s
    ensures Comparable(a, b)
  {
    if |a| <= |b| {
      assert a == s[..|a|] == b[..|a|];
    } else {
      assert b == s[..|b|] == a[..|b|];
    }
  }
}
