/** How connections are spread over workers: the accept loop of echo_tcp.cpp and the index computation
    of Server.java. */
module Dispatch {
  const WRAP: nat := 0x1_0000_0000_0000_0000

  /** The worker that the j-th accepted socket goes to, with a counter of `wrap` values. */
  function Target(wrap: nat, n: nat, j: nat): (t: nat)
    requires wrap > 0 && n > 0
    ensures t < n
  {
    j % wrap % n
  }

  function Load(wrap: nat, n: nat, i: nat, k: nat): nat
    requires wrap > 0 && n > 0
  {
    if k == 0 then 0 else Load(wrap, n, i, k - 1) + (if Target(wrap, n, k - 1) == i then 1 else 0)
  }

  /** The sockets of worker i, in the order of acceptance. */
  function Assigned<T>(wrap: nat, n: nat, i: nat, socks: seq<T>): (a: seq<T>)
    requires wrap > 0 && n > 0
    ensures |a| == Load(wrap, n, i, |socks|)
  {
    if socks == [] then [] else
    var j := |socks| - 1;
    var before := Assigned(wrap, n, i, socks[..j]);
    if Target(wrap, n, j) == i then before + [socks[j]] else before
  }

  /** Loads of any two workers differ by at most one. */
  ghost predicate Balanced(wrap: nat, n: nat, k: nat)
    requires wrap > 0 && n > 0
  {
    forall i, j :: 0 <= i < n && 0 <= j < n ==> Load(wrap, n, i, k) <= Load(wrap, n, j, k) + 1
  }

  lemma DivModStep(k: nat, n: nat)
    requires n > 0
    ensures if k % n == n - 1
      then (k + 1) / n == k / n + 1 && (k + 1) % n == 0
      else (k + 1) / n == k / n && (k + 1) % n == k % n + 1
  {
    var q, r := k / n, k % n;
    assert k + 1 == n * q + (r + 1);
    if r == n - 1 {
      assert k + 1 == n * (q + 1);
      Quotient(k + 1, n, q + 1, 0);
    } else {
      Quotient(k + 1, n, q, r + 1);
    }
  }

  lemma Quotient(k: nat, n: nat, q: nat, r: nat)
    requires n > 0 && r < n && k == n * q + r
    ensures k / n == q && k % n == r
  {
    var q', r' := k / n, k % n;
    assert n * (q' - q) == r - r';
    SmallMultiple(n, q' - q);
  }

  lemma SmallMultiple(n: int, d: int)
    requires -n < n * d < n
    ensures d == 0
  {
    assert d >= 1 ==> n * d >= n * 1;
    assert d <= -1 ==> n * d <= n * -1;
  }

  /** The share of worker i in k sockets. */
  function Share(n: nat, i: nat, k: nat): nat
    requires n > 0
  {
    k / n + (if i < k % n then 1 else 0)
  }

  lemma NextShare(n: nat, i: nat, k: nat)
    requires n > 0 && i < n
    ensures Share(n, i, k + 1) == Share(n, i, k) + if k % n == i then 1 else 0
  {
    DivModStep(k, n);
  }

  lemma NoShare(n: nat, i: nat)
    requires n > 0
    ensures Share(n, i, 0) == 0
  {
    Quotient(0, n, 0, 0);
  }

  /** While the counter has not wrapped, or when its range is a multiple of the number of workers, the
      first k sockets give every worker k / n of them, and one more to each of the first k % n. */
  lemma {:induction false} LoadIsEven(wrap: nat, n: nat, i: nat, k: nat)
    requires wrap > 0 && n > 0 && i < n && (k <= wrap || wrap % n == 0)
    ensures Load(wrap, n, i, k) == k / n + (if i < k % n then 1 else 0)
  {
    if k > 0 {
      LoadIsEven(wrap, n, i, k - 1);
      NextShare(n, i, k - 1);
      EarlyTarget(wrap, n, k - 1);
      assert Load(wrap, n, i, k) == Share(n, i, k);
    } else {
      NoShare(n, i);
    }
  }

  lemma EarlyTarget(wrap: nat, n: nat, j: nat)
    requires wrap > 0 && n > 0 && (j < wrap || wrap % n == 0)
    ensures Target(wrap, n, j) == j % n
  {
    if j < wrap {
      Quotient(j, wrap, 0, j);
    } else {
      ModOfMultiple(j, wrap, n);
    }
  }

  lemma ModOfMultiple(j: nat, wrap: nat, n: nat)
    requires wrap > 0 && n > 0 && wrap % n == 0
    ensures j % wrap % n == j % n
  {
    var q, r, m := j / wrap, j % wrap, wrap / n;
    assert wrap == n * m;
    Regroup(n, m, q);
    var q', r' := r / n, r % n;
    assert j == n * (m * q) + n * q' + r';
    Distribute(n, m * q, q');
    Quotient(j, n, m * q + q', r');
  }

  lemma Regroup(n: nat, m: nat, q: nat)
    ensures n * m * q == n * (m * q) && m * q >= 0
  {
  }

  lemma Distribute(n: nat, a: nat, b: nat)
    ensures n * (a + b) == n * a + n * b
  {
  }

  /** A second round of the counter repeats the first. */
  lemma {:induction false} SecondRound(wrap: nat, n: nat, i: nat, k: nat)
    requires wrap > 0 && n > 0 && k <= wrap
    ensures Load(wrap, n, i, wrap + k) == Load(wrap, n, i, wrap) + Load(wrap, n, i, k)
  {
    if k > 0 {
      SecondRound(wrap, n, i, k - 1);
      var j := k - 1;
      Quotient(wrap + j, wrap, 1, j);
      Quotient(j, wrap, 0, j);
    }
  }

  lemma BalancedWhenEven(wrap: nat, n: nat, k: nat)
    requires wrap > 0 && n > 0 && (k <= wrap || wrap % n == 0)
    ensures Balanced(wrap, n, k)
  {
    forall i, j | 0 <= i < n && 0 <= j < n ensures Load(wrap, n, i, k) <= Load(wrap, n, j, k) + 1 {
      LoadIsEven(wrap, n, i, k);
      LoadIsEven(wrap, n, j, k);
    }
  }

  /** The dispatch stays balanced for every number of accepted sockets exactly when the number of
      workers divides the range of the counter. */
  lemma BalancedForeverIff(wrap: nat, n: nat)
    requires 0 < n <= wrap
    ensures (forall k: nat :: Balanced(wrap, n, k)) <==> wrap % n == 0
  {
    if wrap % n == 0 {
      forall k: nat ensures Balanced(wrap, n, k) {
        BalancedWhenEven(wrap, n, k);
      }
    } else {
      LoadIsEven(wrap, n, 0, wrap);
      LoadIsEven(wrap, n, n - 1, wrap);
      SecondRound(wrap, n, 0, wrap);
      SecondRound(wrap, n, n - 1, wrap);
      assert !Balanced(wrap, n, wrap + wrap);
    }
  }

  function PowerOf2(e: nat): (p: nat)
    ensures p > 0
  {
    if e == 0 then 1 else 2 * PowerOf2(e - 1)
  }

  /** A number that divides twice m is even, or divides m. */
  lemma HalfDivides(n: nat, m: nat)
    requires n > 0 && (2 * m) % n == 0 && n % 2 == 1
    ensures m % n == 0
  {
    var q := 2 * m / n;
    assert 2 * m == n * q;
    var h, k := n / 2, q / 2;
    assert n == 2 * h + 1;
    if q % 2 == 1 {
      assert q == 2 * k + 1;
      OddProduct(h, k);
      assert false;
    }
    HalfProduct(n, k);
    Quotient(m, n, k, 0);
  }

  lemma OddProduct(h: int, k: int)
    ensures (2 * h + 1) * (2 * k + 1) == 2 * (2 * h * k + h + k) + 1
  {
  }

  lemma HalfProduct(n: int, k: int)
    ensures n * (2 * k) == 2 * (n * k)
  {
  }

  lemma HalvesDivide(n: nat, m: nat, half: nat, halfOfM: nat)
    requires n == 2 * half > 0 && m == 2 * halfOfM && m % n == 0
    ensures halfOfM % half == 0
  {
    var q := m / n;
    assert m == n * q;
    DoubledProduct(half, q);
    Quotient(halfOfM, half, q, 0);
  }

  lemma DoubledProduct(n: int, q: int)
    ensures 2 * n * q == 2 * (n * q)
  {
  }

  lemma {:induction false} DivisorsOfPower(n: nat, e: nat)
    requires n > 0 && PowerOf2(e) % n == 0
    ensures exists d: nat :: d <= e && n == PowerOf2(d)
  {
    if n == 1 {
      assert n == PowerOf2(0);
    } else if n % 2 == 1 {
      if e > 0 {
        HalfDivides(n, PowerOf2(e - 1));
        DivisorsOfPower(n, e - 1);
        var d: nat :| d <= e - 1 && n == PowerOf2(d);
      } else {
        Quotient(1, n, 0, 1);
        assert false;
      }
    } else if e > 0 {
      HalvesDivide(n, PowerOf2(e), n / 2, PowerOf2(e - 1));
      DivisorsOfPower(n / 2, e - 1);
      var d: nat :| d <= e - 1 && n / 2 == PowerOf2(d);
      assert n == PowerOf2(d + 1);
    } else {
      Quotient(1, n, 0, 1);
      assert false;
    }
  }

  lemma {:induction false} PowerDivides(d: nat, e: nat)
    requires d <= e
    ensures PowerOf2(e) % PowerOf2(d) == 0
  {
    var n := PowerOf2(d);
    if d < e {
      PowerDivides(d, e - 1);
      var q := PowerOf2(e - 1) / n;
      assert PowerOf2(e - 1) == n * q;
      HalfProduct(n, q);
      Quotient(PowerOf2(e), n, 2 * q, 0);
    } else {
      Quotient(n, n, 1, 0);
    }
  }

  lemma {:induction false} PowersSquare(e: nat)
    ensures PowerOf2(2 * e) == PowerOf2(e) * PowerOf2(e)
  {
    if e > 0 {
      PowersSquare(e - 1);
      var p := PowerOf2(e - 1);
      assert PowerOf2(2 * e) == 2 * (2 * PowerOf2(2 * (e - 1)));
      assert (2 * p) * (2 * p) == 2 * (2 * (p * p));
    }
  }

  /** With the program's 64-bit counter the placement stays balanced for ever exactly when the number of
      workers is a power of two. */
  lemma BalancedForeverIffPowerOf2(n: nat)
    requires 0 < n <= WRAP
    ensures (forall k: nat :: Balanced(WRAP, n, k)) <==> exists d: nat :: d <= 64 && n == PowerOf2(d)
  {
    WrapIsPower();
    BalancedForeverIff(WRAP, n);
    if WRAP % n == 0 {
      DivisorsOfPower(n, 64);
    }
    if d: nat :| d <= 64 && n == PowerOf2(d) {
      PowerDivides(d, 64);
    }
  }

  lemma WrapIsPower()
    ensures WRAP == PowerOf2(64)
  {
    assert PowerOf2(8) == 256;
    PowersSquare(8);
    PowersSquare(16);
    PowersSquare(32);
  }

  lemma AssignedStep<T>(wrap: nat, n: nat, i: nat, socks: seq<T>, k: nat)
    requires wrap > 0 && n > 0 && k < |socks|
    ensures Assigned(wrap, n, i, socks[..k + 1]) ==
      if i == k % wrap % n then Assigned(wrap, n, i, socks[..k]) + [socks[k]]
      else Assigned(wrap, n, i, socks[..k])
  {
    assert socks[..k + 1][..k] == socks[..k];
  }

  /** What becomes of a socket that is to join a worker. */
  datatype Joining = Joined | FcntlFailed | EpollFailed

  /** What `accept` returns, with the further fate of the socket. */
  datatype Accept<T> = Client(sock: T, joining: Joining) | Failed

  predicate Served<T>(a: Accept<T>) {
    a.Client? && a.joining == Joined
  }

  function Sockets<T>(accepts: seq<Accept<T>>): (socks: seq<T>)
    requires forall i :: 0 <= i < |accepts| ==> Served(accepts[i])
    ensures |socks| == |accepts|
    ensures forall i :: 0 <= i < |socks| ==> Served(accepts[i]) && socks[i] == accepts[i].sock
  {
    seq(|accepts|, i requires 0 <= i < |accepts| && Served(accepts[i]) => accepts[i].sock)
  }

  /** `addConnection` of worker w, which throws when a system call fails, before anything has changed;
      the worker's thread is started by its first connection. */
  method AddConnection<T>(queues: array<seq<T>>, started: array<bool>, w: nat, sock: T, joining: Joining)
    returns (thrown: bool)
    requires w < queues.Length == started.Length
    modifies queues, started
    ensures thrown <==> joining != Joined
    ensures thrown ==> queues[..] == old(queues[..]) && started[..] == old(started[..])
    ensures !thrown ==> queues[w] == old(queues[w]) + [sock] && started[w]
    ensures forall i :: 0 <= i < queues.Length && i != w ==>
      queues[i] == old(queues[i]) && started[i] == old(started[i])
  {
    if joining == FcntlFailed {
      return true;
    }
    if joining == EpollFailed {
      return true;
    }
    queues[w] := queues[w] + [sock];
    if !started[w] {
      started[w] := true;
    }
    return false;
  }

  /** The queues are right after one more socket if they were right before. */
  lemma QueuesAfter<T>(accepts: seq<Accept<T>>, k: nat, n: nat, before: seq<seq<T>>, after: seq<seq<T>>)
    requires k < |accepts| && n == |before| == |after| && n > 0
    requires forall i :: 0 <= i <= k ==> Served(accepts[i])
    requires forall i :: 0 <= i < n ==> before[i] == Assigned(WRAP, n, i, Sockets(accepts[..k]))
    requires Served(accepts[k])
    requires after == before[k % WRAP % n := before[k % WRAP % n] + [accepts[k].sock]]
    ensures forall i :: 0 <= i < n ==> after[i] == Assigned(WRAP, n, i, Sockets(accepts[..k + 1]))
  {
    var socks := Sockets(accepts[..k + 1]);
    assert socks[..k] == Sockets(accepts[..k]) && socks[..k + 1] == socks;
    forall i | 0 <= i < n ensures after[i] == Assigned(WRAP, n, i, socks) {
      AssignedStep(WRAP, n, i, socks, k);
      assert before[i] == Assigned(WRAP, n, i, socks[..k]);
    }
  }

  /** The accept loop, with its 64-bit counter, which the first failure ends. Of the k sockets accepted
      until then each worker gets its own in order, and its thread is started exactly when it gets the
      first. */
  method AcceptLoop<T>(accepts: seq<Accept<T>>, n: nat)
    returns (k: nat, queues: array<seq<T>>, started: array<bool>)
    requires n > 0
    ensures k <= |accepts| && (k < |accepts| ==> !Served(accepts[k]))
    ensures forall i :: 0 <= i < k ==> Served(accepts[i])
    ensures queues.Length == started.Length == n
    ensures forall i :: 0 <= i < n ==> queues[i] == Assigned(WRAP, n, i, Sockets(accepts[..k]))
    ensures forall i :: 0 <= i < n ==> (started[i] <==> queues[i] != [])
  {
    queues := new seq<T>[n](_ => []);
    started := new bool[n](_ => false);
    var counter: nat := 0;
    k := 0;
    while k < |accepts|
      invariant 0 <= k <= |accepts| && counter == k % WRAP
      invariant forall i :: 0 <= i < k ==> Served(accepts[i])
      invariant forall i :: 0 <= i < n ==> queues[i] == Assigned(WRAP, n, i, Sockets(accepts[..k]))
      invariant forall i :: 0 <= i < n ==> (started[i] <==> queues[i] != [])
    {
      ghost var before := queues[..];
      if accepts[k].Failed? {
        return;
      }
      var thrown := AddConnection(queues, started, counter % n, accepts[k].sock, accepts[k].joining);
      if thrown {
        assert queues[..] == before;
        return;
      }
      QueuesAfter(accepts, k, n, before, queues[..]);
      NextCounter(k);
      counter := (counter + 1) % WRAP;
      k := k + 1;
    }
  }

  lemma NextCounter(k: nat)
    ensures (k % WRAP + 1) % WRAP == (k + 1) % WRAP
  {
  }

  // ----- Server.java -----

  /** Java's remainder has the sign of the dividend. */
  function JavaRemainder(a: int, b: nat): int
    requires b > 0
  {
    if a >= 0 then a % b else -((-a) % b)
  }

  /** The slot for a ticket of the AtomicLong: 1 + ticket % (length - 1). */
  function Slot(ticket: int, length: nat): int
    requires length > 1
  {
    1 + JavaRemainder(ticket, length - 1)
  }

  /** The slot is one of 1..length-1 exactly for the tickets that are not negative, and among the
      negative ones, after the counter has wrapped, for the multiples of length - 1. */
  lemma SlotInRangeIff(ticket: int, length: nat)
    requires length > 1
    ensures 1 <= Slot(ticket, length) < length <==> ticket >= 0 || (-ticket) % (length - 1) == 0
  {
  }

  /** Java's remainder: smaller than the divisor, with the sign of the dividend, from which it differs by a
      multiple of the divisor. */
  lemma JavaRemainderLaw(a: int, b: nat)
    requires b > 0
    ensures
      var r := JavaRemainder(a, b);
      && (if r < 0 then -r else r) < b && (a >= 0 ==> r >= 0) && (a <= 0 ==> r <= 0)
      && (a - r) % b == 0
  {
    if a < 0 {
      var n := -a;
      assert n == b * (n / b) + n % b;
      NegatedProduct(b, n / b);
      MultipleMod(b, -(n / b));
    } else {
      MultipleMod(b, a / b);
    }
  }

  lemma NegatedProduct(b: int, q: int)
    ensures b * (-q) == -(b * q)
  {
  }

  lemma MultipleMod(b: int, q: int)
    requires b > 0
    ensures (b * q) % b == 0
  {
    var r := (b * q) % b;
    var d := (b * q) / b;
    assert b * q == b * d + r;
    DifferenceOfProducts(b, q, d);
    SmallMultiple(b, q - d);
  }

  lemma DifferenceOfProducts(b: int, q: int, d: int)
    ensures b * (q - d) == b * q - b * d
  {
  }

  /** How far the ticket for a slot is from one with remainder r. */
  function Distance(m: nat, r: nat, slot: nat): (d: nat)
    requires r < m && 1 <= slot <= m
    ensures d < m
  {
    if slot - 1 >= r then slot - 1 - r else slot - 1 - r + m
  }

  lemma RemainderAfter(m: nat, q: nat, r: nat, j: nat, slot: nat)
    requires r < m && j < m && 1 <= slot <= m
    ensures 1 + (m * q + r + j) % m == slot <==> j == Distance(m, r, slot)
  {
    if r + j < m {
      Quotient(m * q + r + j, m, q, r + j);
    } else {
      Distribute(m, q, 1);
      Quotient(m * q + r + j, m, q + 1, r + j - m);
    }
  }

  lemma SlotOfTicket(first: nat, t: nat, length: nat, slot: nat)
    requires 1 <= slot < length && first <= t < first + length - 1
    ensures Slot(t, length) == slot <==> t == first + Distance(length - 1, first % (length - 1), slot)
  {
    var m := length - 1;
    var q, r := first / m, first % m;
    assert t == m * q + r + (t - first);
    RemainderAfter(m, q, r, t - first, slot);
  }

  /** Of any length - 1 consecutive tickets, none of them negative, exactly one is for each slot from 1 to
      length - 1. */
  lemma EachSlotHitOnce(first: nat, length: nat, slot: nat) returns (ticket: nat)
    requires 1 <= slot < length
    ensures first <= ticket < first + length - 1
    ensures forall t: nat :: first <= t < first + length - 1 ==> (Slot(t, length) == slot <==> t == ticket)
  {
    ticket := first + Distance(length - 1, first % (length - 1), slot);
    forall t: nat | first <= t < first + length - 1 ensures Slot(t, length) == slot <==> t == ticket {
      SlotOfTicket(first, t, length, slot);
    }
  }
}
