/** The request a client sends again and again, and the check it makes of each answer. */
module Requests {
  import opened Net

  const REQUEST_SIZE: nat := 32
  const RAND_MAX: nat := 0x7fff_ffff

  function Digits(n: nat): (d: seq<byte>)
    ensures |d| > 0
    ensures forall i :: 0 <= i < |d| ==> 48 <= d[i] < 58
  {
    if n < 10 then [48 + n as byte] else Digits(n / 10) + [48 + (n % 10) as byte]
  }

  lemma {:induction false} DigitsAreFew(n: nat, k: nat, limit: nat)
    requires k > 0 && n < limit && limit == Power10(k)
    ensures |Digits(n)| <= k
    decreases k
  {
    if n >= 10 {
      DigitsAreFew(n / 10, k - 1, Power10(k - 1));
    }
  }

  function Power10(k: nat): nat {
    if k == 0 then 1 else 10 * Power10(k - 1)
  }

  lemma RandHasFewDigits(r: nat)
    requires r <= RAND_MAX
    ensures |Digits(r)| <= 10
  {
    assert Power10(10) == 10_000_000_000 by {
      assert Power10(5) == 100_000;
    }
    DigitsAreFew(r, 10, Power10(10));
  }

  /** The number that decimal digits spell, the first being the most significant. */
  function Spelled(d: seq<byte>): int {
    if d == [] then 0 else 10 * Spelled(d[..|d| - 1]) + (d[|d| - 1] as int - 48)
  }

  /** Reading the digits back gives the number, and they do not start with a needless zero. */
  lemma {:induction false} DigitsReadBack(n: nat)
    ensures Spelled(Digits(n)) == n
    ensures n > 0 ==> Digits(n)[0] != 48
  {
    if n >= 10 {
      DigitsReadBack(n / 10);
      assert Digits(n)[..|Digits(n)| - 1] == Digits(n / 10);
    } else {
      assert Digits(n)[..0] == [];
    }
  }

  /** `send_buf` as `connect` fills it: spaces, the random number with its terminating NUL, and a line
      feed in the last place. */
  function Request(r: nat): (b: seq<byte>)
    requires r <= RAND_MAX
    ensures |b| == REQUEST_SIZE
  {
    RandHasFewDigits(r);
    var text := Digits(r) + [0];
    text + seq(REQUEST_SIZE - 1 - |text|, _ => 32) + [10]
  }

  /** Two requests are the same only for the same random number: it can be read off the bytes up to
      the NUL. Behind it are spaces, and a line feed at the end. */
  lemma RequestLayout(r: nat)
    requires r <= RAND_MAX
    ensures
      var b := Request(r);
      exists nul :: 0 < nul <= 10 && b[nul] == 0 && Spelled(b[..nul]) == r
        && (forall i :: 0 <= i < nul ==> 48 <= b[i] <= 57)
        && (forall i :: nul < i < 31 ==> b[i] == 32) && b[31] == 10
  {
    RandHasFewDigits(r);
    DigitsReadBack(r);
    var nul := |Digits(r)|;
    assert Request(r)[..nul] == Digits(r);
    assert Request(r)[nul] == 0;
  }

  /** `strncmp(a, b, n) == 0` */
  predicate StrncmpEqual(a: seq<byte>, b: seq<byte>, n: nat)
    requires |a| >= n && |b| >= n
  {
    n == 0 || (a[0] == b[0] && (a[0] == 0 || StrncmpEqual(a[1..], b[1..], n - 1)))
  }

  lemma {:induction false} EqualPassesStrncmp(a: seq<byte>, n: nat)
    requires |a| >= n
    ensures StrncmpEqual(a, a, n)
    decreases n
  {
    if n > 0 {
      EqualPassesStrncmp(a[1..], n - 1);
    }
  }

  lemma HeadAndTail(a: seq<byte>, b: seq<byte>, k: nat)
    requires k < |a| && k < |b|
    ensures a[..k + 1] == b[..k + 1] <==> a[0] == b[0] && a[1..][..k] == b[1..][..k]
  {
    assert a[..k + 1] == [a[0]] + a[1..][..k];
    assert b[..k + 1] == [b[0]] + b[1..][..k];
  }

  lemma {:induction false} StrncmpStopsAtNul(a: seq<byte>, b: seq<byte>, n: nat, nul: nat)
    requires nul < n <= |a| && n <= |b|
    requires a[nul] == 0 && forall i :: 0 <= i < nul ==> a[i] != 0
    ensures StrncmpEqual(a, b, n) <==> a[..nul + 1] == b[..nul + 1]
    decreases n
  {
    HeadAndTail(a, b, nul);
    if nul > 0 {
      StrncmpStopsAtNul(a[1..], b[1..], n - 1, nul - 1);
    }
  }

  /** The check of an answer accepts exactly the answers that agree with the request up to and
      including the NUL after its digits; the other bytes, at least 21 of 32, are not looked at. */
  lemma CheckAcceptsExactly(r: nat, answer: seq<byte>)
    requires r <= RAND_MAX && |answer| == REQUEST_SIZE
    ensures
      var checked := |Digits(r)| + 1;
      && checked <= 11
      && (StrncmpEqual(Request(r), answer, REQUEST_SIZE) <==> Request(r)[..checked] == answer[..checked])
  {
    RandHasFewDigits(r);
    StrncmpStopsAtNul(Request(r), answer, REQUEST_SIZE, |Digits(r)|);
  }

  /** So an answer that lost its line feed passes. */
  lemma WrongAnswerAccepted(r: nat)
    requires r <= RAND_MAX
    ensures
      var wrong := Request(r)[REQUEST_SIZE - 1 := 0];
      wrong != Request(r) && StrncmpEqual(Request(r), wrong, REQUEST_SIZE)
  {
    var wrong := Request(r)[REQUEST_SIZE - 1 := 0];
    CheckAcceptsExactly(r, wrong);
    assert Request(r)[REQUEST_SIZE - 1] == 10;
    assert wrong[REQUEST_SIZE - 1] == 0;
    RandHasFewDigits(r);
  }

  // ----- Streams of one repeated block -----

  function Repeat(block: seq<byte>, k: nat): (s: seq<byte>)
    ensures |s| == k * |block|
  {
    if k == 0 then [] else Repeat(block, k - 1) + block
  }

  /** Wherever in the stream the reader stands after j blocks, the next block is the block. */
  lemma {:induction false} RepeatAt(block: seq<byte>, k: nat, j: nat)
    requires j < k
    ensures j * |block| + |block| <= k * |block|
    ensures Repeat(block, k)[j * |block|..j * |block| + |block|] == block
    ensures Repeat(block, k)[..j * |block|] == Repeat(block, j)
  {
    var s := Repeat(block, k - 1);
    if j < k - 1 {
      RepeatAt(block, k - 1, j);
      assert Repeat(block, k)[j * |block|..j * |block| + |block|] == s[j * |block|..j * |block| + |block|];
      assert Repeat(block, k)[..j * |block|] == s[..j * |block|];
    }
  }
}
