/** The Erlang client's statistics: connectors report to one process, whose mailbox interleaves their
    messages in any way (client.erl). */
module Statistics {
  const MAX_CHILDREN: nat := 10000

  datatype Msg =
    | ConnectTime(mcs: nat)
    | ConnectError
    | ExchangeTime(mcs: nat)
    | ExchangeError

  /** A mailbox entry: a connector's message, or one of the logger's own two timers. */
  datatype Item = From(who: nat, msg: Msg) | LogStamp | Timeout

  datatype Totals = Totals(chld: nat, conErr: nat, exchErr: nat, conSum: nat, latSum: nat, msgs: nat)

  const NOTHING := Totals(0, 0, 0, 0, 0, 0)

  function Plus(a: Totals, b: Totals): Totals {
    Totals(a.chld + b.chld, a.conErr + b.conErr, a.exchErr + b.exchErr,
           a.conSum + b.conSum, a.latSum + b.latSum, a.msgs + b.msgs)
  }

  // ----- The logger -----

  /** What the logger prints, and whether it is still receiving. */
  datatype Log = Log(prints: seq<Totals>, totals: Totals, running: bool)

  function GatherLog(t: Totals, mailbox: seq<Item>): Log
    decreases |mailbox|
  {
    if mailbox == [] then Log([], t, true) else
    var rest := mailbox[1..];
    match mailbox[0]
    case Timeout => Log([t], t, false)
    case LogStamp => var l := GatherLog(t, rest); l.(prints := [t] + l.prints)
    case From(_, m) => GatherLog(Counted(t, m), rest)
  }

  /** The accumulators after one message. */
  function Counted(t: Totals, m: Msg): Totals {
    match m
    case ConnectTime(mcs) => t.(chld := t.chld + 1, conSum := t.conSum + mcs)
    case ConnectError => t.(chld := t.chld + 1, conErr := t.conErr + 1)
    case ExchangeTime(mcs) => t.(latSum := t.latSum + mcs, msgs := t.msgs + 1)
    case ExchangeError => t.(exchErr := t.exchErr + 1)
  }

  // ----- The connectors -----

  datatype Exchange = Echoed(mcs: nat) | Broken | ClosedByOrder

  datatype Attempt = Refused | Accepted(mcs: nat)

  /** All that a connector does: the outcome of its connect, and of its exchanges in turn. */
  datatype Life = Life(attempt: Attempt, exchanges: seq<Exchange>)

  function SporadicExchange(xs: seq<Exchange>): seq<Msg> {
    if xs == [] then [] else
    match xs[0]
    case Echoed(mcs) => [ExchangeTime(mcs)] + SporadicExchange(xs[1..])
    case Broken => [ExchangeError]
    case ClosedByOrder => []
  }

  function Connector(l: Life): seq<Msg> {
    match l.attempt
    case Refused => [ConnectError]
    case Accepted(mcs) => [ConnectTime(mcs)] + SporadicExchange(l.exchanges)
  }

  /** The connectors that `starter` spawns, numbered by its counter. */
  function Starter(running: nat): (ids: seq<nat>)
    requires running <= MAX_CHILDREN
    ensures |ids| == 10000 - running
    ensures forall i :: 0 <= i < |ids| ==> ids[i] == running + i
    decreases MAX_CHILDREN - running
  {
    if running == MAX_CHILDREN then [] else [running] + Starter(running + 1)
  }

  // ----- Sums over connectors -----

  function Worth(m: Msg): Totals {
    match m
    case ConnectTime(mcs) => Totals(1, 0, 0, mcs, 0, 0)
    case ConnectError => Totals(1, 1, 0, 0, 0, 0)
    case ExchangeTime(mcs) => Totals(0, 0, 0, 0, mcs, 1)
    case ExchangeError => Totals(0, 0, 1, 0, 0, 0)
  }

  function Tally(ms: seq<Msg>): Totals {
    if ms == [] then NOTHING else Plus(Worth(ms[0]), Tally(ms[1..]))
  }

  /** What connector i has got into the mailbox, in order. */
  function PartOf(mailbox: seq<Item>, i: nat): seq<Msg> {
    if mailbox == [] then [] else
    var rest := PartOf(mailbox[1..], i);
    if mailbox[0].From? && mailbox[0].who == i then [mailbox[0].msg] + rest else rest
  }

  function SumOfParts(mailbox: seq<Item>, n: nat): Totals {
    if n == 0 then NOTHING else Plus(SumOfParts(mailbox, n - 1), Tally(PartOf(mailbox, n - 1)))
  }

  /** The mailbox interleaves what the n connectors have sent so far. */
  ghost predicate Interleaves(mailbox: seq<Item>, lives: seq<Life>) {
    && (forall e :: e in mailbox && e.From? ==> e.who < |lives|)
    && (forall i :: 0 <= i < |lives| ==> PartOf(mailbox, i) <= Connector(lives[i]))
  }

  lemma {:induction false} SumOfPartsUnfold(mailbox: seq<Item>, n: nat)
    requires mailbox != []
    ensures SumOfParts(mailbox, n) ==
      if mailbox[0].From? && mailbox[0].who < n
      then Plus(Worth(mailbox[0].msg), SumOfParts(mailbox[1..], n))
      else SumOfParts(mailbox[1..], n)
  {
    if n > 0 {
      SumOfPartsUnfold(mailbox, n - 1);
      assert PartOf(mailbox, n - 1) ==
        if mailbox[0].From? && mailbox[0].who == n - 1
        then [mailbox[0].msg] + PartOf(mailbox[1..], n - 1)
        else PartOf(mailbox[1..], n - 1);
    }
  }

  lemma {:induction false} NoParts(n: nat)
    ensures SumOfParts([], n) == NOTHING
  {
    if n > 0 {
      NoParts(n - 1);
    }
  }

  /** Without the final timeout, the logger's totals are its starting totals plus what each connector
      has contributed, whatever the interleaving. */
  lemma {:induction false} GatherIsSum(t: Totals, mailbox: seq<Item>, n: nat)
    requires Timeout !in mailbox && forall e :: e in mailbox && e.From? ==> e.who < n
    ensures GatherLog(t, mailbox).totals == Plus(t, SumOfParts(mailbox, n))
    ensures GatherLog(t, mailbox).running
    decreases |mailbox|
  {
    if mailbox == [] {
      NoParts(n);
    } else {
      var head, rest := mailbox[0], mailbox[1..];
      assert head in mailbox;
      SumOfPartsUnfold(mailbox, n);
      GatherHead(t, mailbox);
      if head.From? {
        GatherIsSum(Plus(t, Worth(head.msg)), rest, n);
        PlusAssociates(t, Worth(head.msg), SumOfParts(rest, n));
      } else {
        GatherIsSum(t, rest, n);
      }
    }
  }

  lemma PlusAssociates(a: Totals, b: Totals, c: Totals)
    ensures Plus(Plus(a, b), c) == Plus(a, Plus(b, c))
  {
  }

  lemma GatherHead(t: Totals, mailbox: seq<Item>)
    requires mailbox != [] && mailbox[0] != Timeout
    ensures
      var l := GatherLog(t, mailbox);
      if mailbox[0].From? then
        l == GatherLog(Plus(t, Worth(mailbox[0].msg)), mailbox[1..])
      else
        var k := GatherLog(t, mailbox[1..]);
        l == Log([t] + k.prints, k.totals, k.running)
  {
    if mailbox[0].From? {
      CountedIsPlus(t, mailbox[0].msg);
    }
  }

  lemma CountedIsPlus(t: Totals, m: Msg)
    ensures Counted(t, m) == Plus(t, Worth(m))
  {
  }

  /** The totals depend only on what each connector has sent, not on how the messages were mixed. */
  lemma SchedulingDoesNotMatter(a: seq<Item>, b: seq<Item>, n: nat)
    requires Timeout !in a && Timeout !in b
    requires forall e :: e in a + b && e.From? ==> e.who < n
    requires forall i :: 0 <= i < n ==> PartOf(a, i) == PartOf(b, i)
    ensures GatherLog(NOTHING, a).totals == GatherLog(NOTHING, b).totals
  {
    assert forall e :: e in a ==> e in a + b;
    assert forall e :: e in b ==> e in a + b;
    GatherIsSum(NOTHING, a, n);
    GatherIsSum(NOTHING, b, n);
    SamePartsSameSum(a, b, n);
  }

  lemma {:induction false} SamePartsSameSum(a: seq<Item>, b: seq<Item>, n: nat)
    requires forall i :: 0 <= i < n ==> PartOf(a, i) == PartOf(b, i)
    ensures SumOfParts(a, n) == SumOfParts(b, n)
  {
    if n > 0 {
      SamePartsSameSum(a, b, n - 1);
    }
  }

  lemma {:induction false} GatherSplits(t: Totals, a: seq<Item>, b: seq<Item>)
    requires Timeout !in a
    ensures GatherLog(t, a + b) ==
      var l := GatherLog(t, a);
      var m := GatherLog(l.totals, b);
      Log(l.prints + m.prints, m.totals, m.running)
    decreases |a|
  {
    if a == [] {
      assert a + b == b;
    } else {
      assert (a + b)[1..] == a[1..] + b;
      assert a[0] in a;
      GatherHead(t, a);
      GatherHead(t, a + b);
      if a[0].From? {
        GatherSplits(Plus(t, Worth(a[0].msg)), a[1..], b);
      } else {
        GatherSplits(t, a[1..], b);
        var l := GatherLog(t, a[1..]);
        assert [t] + (l.prints + GatherLog(l.totals, b).prints) == ([t] + l.prints) + GatherLog(l.totals, b).prints;
      }
    }
  }

  function Stamps(mailbox: seq<Item>): nat {
    if mailbox == [] then 0 else (if mailbox[0] == LogStamp then 1 else 0) + Stamps(mailbox[1..])
  }

  lemma {:induction false} PrintsAtStamps(t: Totals, mailbox: seq<Item>)
    requires Timeout !in mailbox
    ensures |GatherLog(t, mailbox).prints| == Stamps(mailbox)
    decreases |mailbox|
  {
    if mailbox != [] {
      assert mailbox[0] in mailbox;
      GatherHead(t, mailbox);
      PrintsAtStamps(if mailbox[0].From? then Plus(t, Worth(mailbox[0].msg)) else t, mailbox[1..]);
    }
  }

  /** Every print shows the starting totals and the sums over the connectors of all that came before. */
  lemma PrintShowsSums(t: Totals, before: seq<Item>, after: seq<Item>, n: nat)
    requires Timeout !in before && forall e :: e in before && e.From? ==> e.who < n
    ensures
      var l := GatherLog(t, before + ([LogStamp] + after));
      |l.prints| > Stamps(before) && l.prints[Stamps(before)] == Plus(t, SumOfParts(before, n))
  {
    GatherSplits(t, before, [LogStamp] + after);
    PrintsAtStamps(t, before);
    GatherIsSum(t, before, n);
    GatherHead(GatherLog(t, before).totals, [LogStamp] + after);
  }

  /** The timeout prints once more, the final figures, and stops the logger: nothing later counts. */
  lemma TimeoutEndsLog(t: Totals, before: seq<Item>, after: seq<Item>, n: nat)
    requires Timeout !in before && forall e :: e in before && e.From? ==> e.who < n
    ensures
      var l := GatherLog(t, before + ([Timeout] + after));
      && !l.running && l.totals == Plus(t, SumOfParts(before, n))
      && |l.prints| == Stamps(before) + 1 && l.prints[Stamps(before)] == l.totals
  {
    GatherSplits(t, before, [Timeout] + after);
    PrintsAtStamps(t, before);
    GatherIsSum(t, before, n);
  }

  // ----- What a connector reports -----

  /** The number of exchanges before the one that ends the connection. */
  function Completed(xs: seq<Exchange>): (k: nat)
    ensures k <= |xs| && (k < |xs| ==> !xs[k].Echoed?)
    ensures forall i :: 0 <= i < k ==> xs[i].Echoed?
  {
    if xs == [] || !xs[0].Echoed? then 0 else 1 + Completed(xs[1..])
  }

  function TimeOf(xs: seq<Exchange>): nat
    requires forall i :: 0 <= i < |xs| ==> xs[i].Echoed?
  {
    if xs == [] then 0 else xs[0].mcs + TimeOf(xs[1..])
  }

  /** What a message adds to the rest of a report. */
  predicate Adds(m: Msg, r: Totals, t: Totals) {
    && t.chld == r.chld + (if m.ConnectTime? || m.ConnectError? then 1 else 0)
    && t.conErr == r.conErr + (if m.ConnectError? then 1 else 0)
    && t.exchErr == r.exchErr + (if m.ExchangeError? then 1 else 0)
    && t.conSum == r.conSum + (if m.ConnectTime? then m.mcs else 0)
    && t.latSum == r.latSum + (if m.ExchangeTime? then m.mcs else 0)
    && t.msgs == r.msgs + (if m.ExchangeTime? then 1 else 0)
  }

  lemma WorthAdds(m: Msg, r: Totals)
    ensures Adds(m, r, Plus(Worth(m), r))
  {
  }

  lemma TallyOf(ms: seq<Msg>, rest: seq<Msg>)
    requires ms != [] && rest == ms[1..]
    ensures Adds(ms[0], Tally(rest), Tally(ms))
  {
    WorthAdds(ms[0], Tally(rest));
  }

  predicate Zero(t: Totals) {
    t.chld == 0 && t.conErr == 0 && t.exchErr == 0 && t.conSum == 0 && t.latSum == 0 && t.msgs == 0
  }

  lemma TallyOfNone(ms: seq<Msg>)
    requires |ms| == 0
    ensures Zero(Tally(ms))
  {
  }

  predicate ExchangesAdd(t: Totals, xs: seq<Exchange>) {
    var k := Completed(xs);
    && t.chld == t.conErr == t.conSum == 0
    && t.exchErr == (if k < |xs| && xs[k].Broken? then 1 else 0)
    && t.msgs == k && t.latSum == TimeOf(xs[..k])
  }

  lemma EchoedAdds(t: Totals, r: Totals, xs: seq<Exchange>)
    requires xs != [] && xs[0].Echoed? && ExchangesAdd(r, xs[1..])
    requires t.chld == r.chld && t.conErr == r.conErr && t.conSum == r.conSum && t.exchErr == r.exchErr
    requires t.msgs == r.msgs + 1 && t.latSum == r.latSum + xs[0].mcs
    ensures ExchangesAdd(t, xs)
  {
    var k := Completed(xs);
    assert xs[..k][1..] == xs[1..][..k - 1];
  }

  lemma BrokenAdds(m: Msg, r: Totals, t: Totals, xs: seq<Exchange>)
    requires xs != [] && xs[0].Broken? && m.ExchangeError? && Zero(r) && Adds(m, r, t)
    ensures ExchangesAdd(t, xs)
  {
    NoTime(xs[..Completed(xs)]);
  }

  lemma NothingAdds(ms: seq<Msg>, xs: seq<Exchange>)
    requires |ms| == 0 && (xs == [] || xs[0].ClosedByOrder?)
    ensures ExchangesAdd(Tally(ms), xs)
  {
    TallyOfNone(ms);
    NoTime(xs[..Completed(xs)]);
  }

  lemma NoTime(xs: seq<Exchange>)
    requires |xs| == 0
    ensures TimeOf(xs) == 0
  {
  }

  lemma {:induction false} ExchangesTally(xs: seq<Exchange>)
    ensures ExchangesAdd(Tally(SporadicExchange(xs)), xs)
    decreases |xs|
  {
    var ms := SporadicExchange(xs);
    if xs == [] || xs[0].ClosedByOrder? {
      NothingAdds(ms, xs);
    } else if xs[0].Echoed? {
      ExchangesTally(xs[1..]);
      var rest := SporadicExchange(xs[1..]);
      assert ms[1..] == rest;
      TallyOf(ms, rest);
      EchoedAdds(Tally(ms), Tally(rest), xs);
    } else {
      TallyOf(ms, ms[1..]);
      TallyOfNone(ms[1..]);
      BrokenAdds(ms[0], Tally(ms[1..]), Tally(ms), xs);
    }
  }

  predicate Reports(l: Life, t: Totals) {
    var xs, k := l.exchanges, Completed(l.exchanges);
    && t.chld == 1
    && t.conErr == (if l.attempt.Refused? then 1 else 0)
    && t.conSum == (if l.attempt.Refused? then 0 else l.attempt.mcs)
    && t.exchErr == (if l.attempt.Accepted? && k < |xs| && xs[k].Broken? then 1 else 0)
    && t.msgs == (if l.attempt.Refused? then 0 else k)
    && t.latSum == (if l.attempt.Refused? then 0 else TimeOf(xs[..k]))
  }

  lemma RefusedReports(l: Life, m: Msg, r: Totals, t: Totals)
    requires l.attempt.Refused? && m.ConnectError? && Zero(r) && Adds(m, r, t)
    ensures Reports(l, t)
  {
  }

  lemma AcceptedReports(l: Life, m: Msg, r: Totals, t: Totals)
    requires l.attempt.Accepted? && m == ConnectTime(l.attempt.mcs)
    requires ExchangesAdd(r, l.exchanges) && Adds(m, r, t)
    ensures Reports(l, t)
  {
  }

  /** A connector is one child. A refused connect is its one error and all it reports; otherwise it reports
      the time of the connect, the number and times of its exchanges, and an error exactly when they end by
      one that is broken. */
  lemma ConnectorTally(l: Life)
    ensures Reports(l, Tally(Connector(l)))
  {
    var ms := Connector(l);
    var rest := ms[1..];
    TallyOf(ms, rest);
    if l.attempt.Refused? {
      TallyOfNone(rest);
      RefusedReports(l, ms[0], Tally(rest), Tally(ms));
    } else {
      assert rest == SporadicExchange(l.exchanges);
      ExchangesTally(l.exchanges);
      AcceptedReports(l, ms[0], Tally(rest), Tally(ms));
    }
  }

  // ----- What the printed figures satisfy -----

  predicate Sound(t: Totals, n: nat) {
    t.conErr <= t.chld <= n && t.exchErr <= t.chld - t.conErr
  }

  lemma {:induction false} ExchangePrefix(xs: seq<Exchange>, p: seq<Msg>)
    requires p <= SporadicExchange(xs)
    ensures Tally(p).chld == Tally(p).conErr == 0 && Tally(p).exchErr <= 1
    decreases |xs|
  {
    if p != [] && xs[0].Echoed? {
      assert p[1..] <= SporadicExchange(xs[1..]);
      ExchangePrefix(xs[1..], p[1..]);
    } else if p != [] {
      assert p[1..] == [];
    }
  }

  lemma ConnectorPrefix(l: Life, p: seq<Msg>)
    requires p <= Connector(l)
    ensures Sound(Tally(p), 1)
  {
    if p != [] && l.attempt.Accepted? {
      assert p[1..] <= SporadicExchange(l.exchanges);
      ExchangePrefix(l.exchanges, p[1..]);
    } else if p != [] {
      assert p[1..] == [];
    }
  }

  lemma {:induction false} PartsAreSound(mailbox: seq<Item>, lives: seq<Life>, n: nat)
    requires n <= |lives|
    requires forall i :: 0 <= i < |lives| ==> PartOf(mailbox, i) <= Connector(lives[i])
    ensures Sound(SumOfParts(mailbox, n), n)
  {
    if n > 0 {
      PartsAreSound(mailbox, lives, n - 1);
      ConnectorPrefix(lives[n - 1], PartOf(mailbox, n - 1));
    }
  }

  lemma {:induction false} PartOfAppend(a: seq<Item>, b: seq<Item>, i: nat)
    ensures PartOf(a + b, i) == PartOf(a, i) + PartOf(b, i)
    decreases |a|
  {
    if a == [] {
      assert a + b == b;
    } else {
      assert (a + b)[1..] == a[1..] + b;
      PartOfAppend(a[1..], b, i);
    }
  }

  lemma InterleavesPrefix(a: seq<Item>, b: seq<Item>, lives: seq<Life>)
    requires Interleaves(a + b, lives)
    ensures Interleaves(a, lives)
  {
    assert forall e :: e in a ==> e in a + b;
    forall i | 0 <= i < |lives| ensures PartOf(a, i) <= Connector(lives[i]) {
      PartOfAppend(a, b, i);
      assert PartOf(a + b, i) <= Connector(lives[i]);
    }
  }

  lemma SeenIsSound(seen: seq<Item>, lives: seq<Life>)
    requires Interleaves(seen, lives) && Timeout !in seen
    ensures Sound(GatherLog(NOTHING, seen).totals, |lives|)
  {
    GatherIsSum(NOTHING, seen, |lives|);
    PartsAreSound(seen, lives, |lives|);
  }

  lemma {:induction false} PrintsFrom(seen: seq<Item>, rest: seq<Item>, lives: seq<Life>)
    requires Timeout !in seen && Interleaves(seen + rest, lives)
    ensures
      var l := GatherLog(GatherLog(NOTHING, seen).totals, rest);
      && (forall p :: p in l.prints ==> Sound(p, |lives|))
      && Sound(l.totals, |lives|)
    decreases |rest|
  {
    InterleavesPrefix(seen, rest, lives);
    SeenIsSound(seen, lives);
    if rest != [] && rest[0] != Timeout {
      var more := seen + [rest[0]];
      assert more + rest[1..] == seen + rest;
      PrintsFrom(more, rest[1..], lives);
      GatherSplits(NOTHING, seen, [rest[0]]);
    }
  }

  /** Whatever the network does to the connectors that `starter` spawns, and however their messages
      mix with the log stamps and the final timeout: every figure printed satisfies
      `ConnErr <= Chld <= 10000` and `ExchErr <= Chld - ConnErr`. */
  lemma PrintedFiguresAreSound(mailbox: seq<Item>, lives: seq<Life>)
    requires |lives| == |Starter(0)| && Interleaves(mailbox, lives)
    ensures forall p :: p in GatherLog(NOTHING, mailbox).prints ==> Sound(p, 10000)
  {
    assert [] + mailbox == mailbox;
    PrintsFrom([], mailbox, lives);
  }
}
