/** The Erlang server's connection: the acceptor makes the socket over to a new process, gives it leave
    to start, and only then does the process open the socket for messages and echo them (server.erl).
    Transfers of ownership and sends of an open socket are taken to succeed. */
module SocketHandover {
  import opened Net

  datatype Owner = Acceptor | Handler

  /** What the acceptor has done for this socket. */
  datatype Stage = Accepted | Spawned | Transferred | Granted

  datatype Pc = Unborn | Waiting | Handling | Gone

  datatype Mail = Perm | Packet(bytes: seq<byte>) | Closed

  /** `held` and `eof`: what has come from the peer while the socket was passive. `stray` is the socket
      mail that has gone to the acceptor. `received` and `sent` are history. */
  datatype Socket = Socket(
    stage: Stage,
    pc: Pc,
    owner: Owner,
    active: bool,
    open: bool,
    held: seq<byte>,
    eof: bool,
    stray: seq<Mail>,
    mail: seq<Mail>,
    received: seq<byte>,
    sent: seq<byte>)

  /** `Accept`: the acceptor's next step; `Arrive` and `PeerClose`: the peer; `Handle`: the process takes
      a message; `Expire`: its receive times out. */
  datatype Event = Accept | Arrive(bytes: seq<byte>) | PeerClose | Handle | Expire

  const INITIAL := Socket(Accepted, Unborn, Acceptor, false, true, [], false, [], [], [], [])

  /** A message of an active socket goes to its owner. */
  function Posted(s: Socket, m: Mail): Socket {
    if s.owner == Handler then s.(mail := s.mail + [m]) else s.(stray := s.stray + [m])
  }

  function AcceptStep(s: Socket): Socket {
    match s.stage
    case Accepted => s.(stage := Spawned, pc := Waiting)
    case Spawned => s.(stage := Transferred, owner := if s.pc == Gone then s.owner else Handler)
    case Transferred => s.(stage := Granted, mail := if s.pc == Gone then s.mail else s.mail + [Perm])
    case Granted => s
  }

  /** The mailbox without its first `perm`. */
  function WithoutPerm(mail: seq<Mail>): seq<Mail> {
    if mail == [] then [] else if mail[0] == Perm then mail[1..] else [mail[0]] + WithoutPerm(mail[1..])
  }

  /** `inet:setopts` with `{active, true}`: what was held is delivered at once. */
  function Activated(s: Socket): Socket {
    var a := s.(active := true, held := [], eof := false);
    var b := if s.held == [] then a else Posted(a, Packet(s.held));
    if s.eof then Posted(b, Closed) else b
  }

  function HandleStep(s: Socket): Socket {
    if s.pc == Waiting && Perm in s.mail then
      Activated(s.(mail := WithoutPerm(s.mail), pc := Handling))
    else if s.pc == Handling && s.mail != [] then
      var rest := s.(mail := s.mail[1..]);
      if s.mail[0].Packet? then rest.(sent := s.sent + s.mail[0].bytes)
      else rest.(pc := Gone, open := false)
    else s
  }

  /** A process that ends takes the socket it owns with it. */
  function ExpireStep(s: Socket): Socket {
    if s.pc == Waiting && Perm !in s.mail then s.(pc := Gone, open := s.owner == Acceptor)
    else if s.pc == Handling && s.mail == [] then s.(pc := Gone, open := false)
    else s
  }

  function Step(s: Socket, e: Event): Socket {
    match e
    case Accept => AcceptStep(s)
    case Arrive(bytes) =>
      if !s.open || Ended(s) || bytes == [] then s
      else if s.active then Posted(s, Packet(bytes)).(received := s.received + bytes)
      else s.(held := s.held + bytes, received := s.received + bytes)
    case PeerClose =>
      if !s.open || Ended(s) then s
      else if s.active then Posted(s, Closed)
      else s.(eof := true)
    case Handle => HandleStep(s)
    case Expire => ExpireStep(s)
  }

  function Run(s: Socket, es: seq<Event>): Socket
    decreases |es|
  {
    if es == [] then s else Run(Step(s, es[0]), es[1..])
  }

  /** The peer has closed its side. */
  predicate Ended(s: Socket) {
    s.eof || Closed in s.mail
  }

  function BytesOf(mail: seq<Mail>): seq<byte> {
    if mail == [] then [] else
    BytesOf(mail[..|mail| - 1]) + (if mail[|mail| - 1].Packet? then mail[|mail| - 1].bytes else [])
  }

  /** Socket mail in the order it can have: data, then at most one notice of the end. */
  predicate DataThenEnd(mail: seq<Mail>) {
    && (forall i :: 0 <= i < |mail| ==> mail[i] != Perm)
    && (forall i :: 0 <= i < |mail| - 1 ==> mail[i].Packet?)
  }

  ghost predicate Inv(s: Socket) {
    && s.stray == []
    && s.sent <= s.received
    && (s.pc == Unborn <==> s.stage == Accepted)
    && (s.stage == Accepted || s.stage == Spawned ==> s.owner == Acceptor)
    && (s.active ==> s.owner == Handler && s.stage == Granted && s.held == [] && !s.eof)
    && (s.active ==> s.pc == Handling || s.pc == Gone)
    && (s.pc == Unborn || s.pc == Waiting ==>
      && !s.active && s.open && s.sent == [] && s.received == s.held
      && s.mail == (if s.stage == Granted then [Perm] else [])
      && (s.stage == Transferred || s.stage == Granted ==> s.owner == Handler))
    && (s.pc == Handling ==>
      && s.active && s.open
      && DataThenEnd(s.mail)
      && s.received == s.sent + BytesOf(s.mail))
    && (s.pc == Gone ==> s.mail == [] && (s.open <==> s.owner == Acceptor))
  }

  lemma {:induction false} BytesOfTail(mail: seq<Mail>)
    requires mail != []
    ensures BytesOf(mail) == (if mail[0].Packet? then mail[0].bytes else []) + BytesOf(mail[1..])
  {
    var n := |mail| - 1;
    if n > 0 {
      BytesOfTail(mail[..n]);
      assert mail[..n][1..] == mail[1..][..n - 1];
    }
  }

  lemma BytesOfMore(mail: seq<Mail>, m: Mail)
    ensures BytesOf(mail + [m]) == BytesOf(mail) + (if m.Packet? then m.bytes else [])
  {
    assert (mail + [m])[..|mail|] == mail;
  }

  /** The first mail of a process whose socket has held back these bytes, and perhaps the end. */
  function FirstMail(held: seq<byte>, eof: bool): seq<Mail> {
    (if held == [] then [] else [Packet(held)]) + (if eof then [Closed] else [])
  }

  lemma FirstMailInOrder(held: seq<byte>, eof: bool)
    ensures BytesOf(FirstMail(held, eof)) == held && DataThenEnd(FirstMail(held, eof))
  {
    var packet := if held == [] then [] else [Packet(held)];
    BytesOfMore([], Packet(held));
    BytesOfMore(packet, Closed);
    assert packet == [] || packet == [] + [Packet(held)];
    assert packet + [] == packet;
  }

  lemma ActivatedFields(s: Socket)
    requires s.owner == Handler && s.mail == [] && s.stray == []
    ensures
      var r := Activated(s);
      && r.mail == FirstMail(s.held, s.eof) && r.active && r.held == [] && !r.eof
      && r.stage == s.stage && r.pc == s.pc && r.owner == s.owner && r.open == s.open
      && r.stray == [] && r.received == s.received && r.sent == s.sent
  {
  }

  lemma OnlyPerm(mail: seq<Mail>)
    requires |mail| == 1 && mail[0].Perm?
    ensures WithoutPerm(mail) == []
  {
  }

  lemma PermToActivate(s: Socket)
    requires Inv(s) && s.pc == Waiting && Perm in s.mail
    ensures |s.mail| == 1 && s.mail[0].Perm? && s.stage == Granted && s.owner == Handler
  {
  }

  lemma ActivatedInv(s: Socket)
    requires s.owner == Handler && s.mail == [] && s.stray == [] && s.stage == Granted && s.pc == Handling
    requires s.open && s.sent == [] && s.received == s.held
    ensures Inv(Activated(s))
  {
    ActivatedFields(s);
    FirstMailInOrder(s.held, s.eof);
  }

  lemma ActivationKeepsInv(s: Socket)
    requires Inv(s) && s.pc == Waiting && Perm in s.mail
    ensures Inv(HandleStep(s))
  {
    PermToActivate(s);
    OnlyPerm(s.mail);
    ActivatedInv(s.(mail := WithoutPerm(s.mail), pc := Handling));
  }

  lemma EchoKeepsInv(s: Socket)
    requires Inv(s) && s.pc == Handling && s.mail != []
    ensures Inv(HandleStep(s))
  {
    BytesOfTail(s.mail);
    if s.mail[0].Packet? {
      var r := HandleStep(s);
      assert r.received == r.sent + BytesOf(r.mail);
      assert DataThenEnd(r.mail);
    }
  }

  lemma HandleKeepsInv(s: Socket)
    requires Inv(s)
    ensures Inv(HandleStep(s))
  {
    if s.pc == Waiting && Perm in s.mail {
      ActivationKeepsInv(s);
    } else if s.pc == Handling && s.mail != [] {
      EchoKeepsInv(s);
    }
  }

  /** While the peer has not closed, one more message keeps the mail in order. */
  lemma PostKeepsOrder(s: Socket, m: Mail)
    requires DataThenEnd(s.mail) && !Ended(s) && m != Perm
    ensures DataThenEnd(s.mail + [m])
  {
    forall i | 0 <= i < |s.mail| ensures s.mail[i].Packet? {
      assert s.mail[i] in s.mail;
    }
  }

  lemma ArriveKeepsInv(s: Socket, bytes: seq<byte>)
    requires Inv(s)
    ensures Inv(Step(s, Arrive(bytes)))
  {
    if s.pc == Handling && !Ended(s) {
      PostKeepsOrder(s, Packet(bytes));
      BytesOfMore(s.mail, Packet(bytes));
      assert s.sent + BytesOf(s.mail) + bytes == s.sent + (BytesOf(s.mail) + bytes);
    }
  }

  lemma PeerCloseKeepsInv(s: Socket)
    requires Inv(s)
    ensures Inv(Step(s, PeerClose))
  {
    if s.pc == Handling && !Ended(s) {
      PostKeepsOrder(s, Closed);
      BytesOfMore(s.mail, Closed);
    }
  }

  lemma StepKeepsInv(s: Socket, e: Event)
    requires Inv(s)
    ensures Inv(Step(s, e))
  {
    match e
    case Accept =>
    case Arrive(bytes) => ArriveKeepsInv(s, bytes);
    case PeerClose => PeerCloseKeepsInv(s);
    case Handle => HandleKeepsInv(s);
    case Expire =>
  }

  lemma {:induction false} RunKeepsInv(s: Socket, es: seq<Event>)
    requires Inv(s)
    ensures Inv(Run(s, es))
    decreases |es|
  {
    if es != [] {
      StepKeepsInv(s, es[0]);
      RunKeepsInv(Step(s, es[0]), es[1..]);
    }
  }

  /** Under every interleaving of acceptor, process and peer: no byte of the peer ever goes to the
      acceptor, the socket is opened for messages only once it belongs to the process, a late `perm`
      never ends the echo loop, and what is echoed is a prefix of what came. When the loop ends on the
      peer's close, every byte has been echoed first. */
  lemma HandoverIsSafe(es: seq<Event>)
    ensures
      var s := Run(INITIAL, es);
      && s.stray == []
      && (s.active ==> s.owner == Handler)
      && s.sent <= s.received
      && (s.pc == Handling ==> Perm !in s.mail && s.received == s.sent + BytesOf(s.mail))
      && (s.pc == Handling && s.mail != [] && !s.mail[0].Packet? ==>
            s.mail[0] == Closed && Step(s, Handle).pc == Gone && Step(s, Handle).sent == s.received)
  {
    RunKeepsInv(INITIAL, es);
    var s := Run(INITIAL, es);
    if s.pc == Handling && s.mail != [] && !s.mail[0].Packet? {
      BytesOfTail(s.mail);
      assert |s.mail| == 1;
      assert BytesOf(s.mail[1..]) == [];
    }
  }

  // ----- What each event does -----

  /** What closes an open socket: the process takes the peer's close from its mailbox, or one of its two
      receives times out while it owns the socket. */
  lemma ClosesExactly(s: Socket, e: Event)
    requires Inv(s) && s.open
    ensures !Step(s, e).open <==>
      || (e == Handle && s.pc == Handling && s.mail != [] && s.mail[0] == Closed)
      || (e.Expire? && s.pc == Handling && s.mail == [])
      || (e.Expire? && s.pc == Waiting && s.owner == Handler && s.stage != Granted)
    ensures Step(s, e).pc == Gone <==>
      || s.pc == Gone || (s.pc == Waiting && e.Expire? && s.stage != Granted)
      || (s.pc == Handling && !Step(s, e).open)
  {
  }

  /** What the peer sends up to its close. */
  function Incoming(es: seq<Event>): seq<byte> {
    if es == [] || es[0] == PeerClose then [] else
    (if es[0].Arrive? then es[0].bytes else []) + Incoming(es[1..])
  }

  lemma StepReceives(s: Socket, e: Event)
    requires Inv(s) && Step(s, e).open
    ensures s.open
    ensures Step(s, e).received == s.received + if e.Arrive? && !Ended(s) then e.bytes else []
    ensures Ended(Step(s, e)) <==> Ended(s) || e == PeerClose
  {
    if e == Handle && s.pc == Waiting && s.stage == Granted {
      assert s.mail == [Perm];
      assert WithoutPerm([Perm]) == [];
    } else if e == Handle && s.pc == Handling && s.mail != [] {
      assert s.mail == [s.mail[0]] + s.mail[1..];
    }
  }

  /** What is still to come from the peer. */
  function Coming(s: Socket, es: seq<Event>): seq<byte> {
    if Ended(s) then [] else Incoming(es)
  }

  lemma StepTakesNext(s: Socket, es: seq<Event>)
    requires Inv(s) && es != [] && Step(s, es[0]).open
    ensures Step(s, es[0]).received + Coming(Step(s, es[0]), es[1..]) == s.received + Coming(s, es)
  {
    StepReceives(s, es[0]);
  }

  lemma {:induction false} RunReceives(s: Socket, es: seq<Event>)
    requires Inv(s) && Run(s, es).open
    ensures s.open && Run(s, es).received == s.received + Coming(s, es)
    decreases |es|
  {
    if es != [] {
      StepKeepsInv(s, es[0]);
      RunReceives(Step(s, es[0]), es[1..]);
      StepReceives(s, es[0]);
      StepTakesNext(s, es);
    }
  }

  /** While the socket is open nothing of what the peer has sent is lost, be it sent before or after the
      hand-over. */
  lemma ReceivesAllWhileOpen(es: seq<Event>)
    ensures
      var s := Run(INITIAL, es);
      s.open ==> s.received == Incoming(es)
  {
    if Run(INITIAL, es).open {
      RunReceives(INITIAL, es);
    }
  }

  /** A process that waits too long and ends before the socket is made over to it leaves it with the
      acceptor, which never closes it: the socket stays open, passive and without an answer, whatever
      comes. In every other case the end of the process has closed the socket. */
  lemma {:induction false} LeakedForEver(s: Socket, es: seq<Event>)
    requires Inv(s) && s.pc == Gone
    ensures
      var d := Run(s, es);
      && d.pc == Gone && d.mail == [] && d.owner == s.owner && d.sent == s.sent
      && (d.open <==> s.open) && (s.open <==> s.owner == Acceptor)
      && (s.open ==> !d.active)
    decreases |es|
  {
    if es != [] {
      StepKeepsInv(s, es[0]);
      LeakedForEver(Step(s, es[0]), es[1..]);
    }
  }

  /** Such a leak happens exactly when the wait expires before the transfer. */
  lemma LeaksExactly(s: Socket, e: Event)
    requires Inv(s) && s.pc != Gone
    ensures
      var t := Step(s, e);
      t.pc == Gone && t.open <==> s.pc == Waiting && s.stage == Spawned && e.Expire?
  {
  }

  // ----- Progress -----

  function Handles(n: nat): (es: seq<Event>)
    ensures |es| == n
  {
    if n == 0 then [] else [Handle] + Handles(n - 1)
  }

  /** Left alone, the process echoes all that is in its mailbox, one message a step. It ends, closing the
      socket, if and only if the peer's close was among them, and waits for more otherwise. */
  lemma {:induction false} EchoesMailbox(s: Socket)
    requires Inv(s) && s.pc == Handling
    ensures
      var d := Run(s, Handles(|s.mail|));
      && d.sent == d.received == s.received && d.mail == []
      && (if Closed in s.mail then d.pc == Gone && !d.open else d.pc == Handling && d.open)
    decreases |s.mail|
  {
    var n := |s.mail|;
    if n == 0 {
      assert BytesOf(s.mail) == [];
    } else {
      BytesOfTail(s.mail);
      StepKeepsInv(s, Handle);
      assert Handles(n)[1..] == Handles(n - 1);
      assert s.mail == [s.mail[0]] + s.mail[1..];
      if s.mail[0].Packet? {
        EchoesMailbox(Step(s, Handle));
      } else {
        assert n == 1 && s.mail[0] == Closed;
        assert Run(Step(s, Handle), Handles(0)) == Step(s, Handle);
        assert BytesOf(s.mail[1..]) == [];
      }
    }
  }

  lemma {:induction false} RunAppend(s: Socket, es: seq<Event>, fs: seq<Event>)
    ensures Run(s, es + fs) == Run(Run(s, es), fs)
    decreases |es|
  {
    if es == [] {
      assert es + fs == fs;
    } else {
      assert (es + fs)[1..] == es[1..] + fs;
      RunAppend(Step(s, es[0]), es[1..], fs);
    }
  }

  lemma RunOne(s: Socket, e: Event)
    ensures Run(s, [e]) == Step(s, e)
  {
    assert [e][1..] == [];
  }

  /** One step of the acceptor, or the first of the process, on the way to the echo loop. */
  lemma TowardsLoop(s: Socket) returns (e: Event)
    requires Inv(s) && (s.pc == Unborn || s.pc == Waiting)
    ensures
      var t := Step(s, e);
      && Inv(t) && t.received == s.received
      && (t.pc == Handling || (t.pc == Waiting && Remaining(t) < Remaining(s)))
      && (s.stage == Granted ==> e == Handle && t.pc == Handling)
  {
    e := if s.stage == Granted then Handle else Accept;
    StepKeepsInv(s, e);
    if s.stage == Granted {
      assert Perm in s.mail;
    }
  }

  function Remaining(s: Socket): nat {
    match s.stage
    case Accepted => 3
    case Spawned => 2
    case Transferred => 1
    case Granted => 0
  }

  lemma {:induction false} ReachesLoop(s: Socket) returns (fs: seq<Event>)
    requires Inv(s) && s.pc != Gone
    ensures
      var d := Run(s, fs);
      Inv(d) && d.pc == Handling && d.received == s.received
    decreases Remaining(s)
  {
    if s.pc == Handling {
      fs := [];
    } else {
      var e := TowardsLoop(s);
      RunOne(s, e);
      fs := [e];
      if Step(s, e).pc != Handling {
        var rest := ReachesLoop(Step(s, e));
        RunAppend(s, [e], rest);
        fs := [e] + rest;
      }
    }
  }

  /** No interleaving of the hand-over loses the echo: from every reachable state in which the process has
      not ended, acceptor and process can go on so that all the peer has sent is echoed. */
  lemma CanAlwaysEcho(es: seq<Event>) returns (fs: seq<Event>)
    ensures
      var s := Run(INITIAL, es);
      var d := Run(s, fs);
      s.pc != Gone ==> d.received == s.received == d.sent == Incoming(es)
  {
    RunKeepsInv(INITIAL, es);
    var s := Run(INITIAL, es);
    fs := [];
    if s.pc != Gone {
      ReceivesAllWhileOpen(es);
      var first := ReachesLoop(s);
      var m := Run(s, first);
      EchoesMailbox(m);
      RunAppend(s, first, Handles(|m.mail|));
      fs := first + Handles(|m.mail|);
    }
  }
}
