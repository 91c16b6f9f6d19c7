/** Retrying with exponential backoff and jitter, in 64-bit arithmetic. */
module Retry {
  import opened Wrappers
  import opened Clock

  const MILLISECOND: int := 1_000_000

  datatype OpResult = Success | Temporary | Permanent

  /** What happens around one attempt: cancellation before it, its result, the random number, cancellation while waiting. */
  datatype Attempt = Attempt(cancelled: bool, result: OpResult, random: nat, interrupted: bool)

  datatype Outcome = Result(r: OpResult) | Cancelled | NoOperation | Panicked

  function Attempts(n: int): int {
    if n < 1 then 1 else n
  }

  function InitialBackoff(ms: int): int {
    if ms < 1 then 100 else ms
  }

  function Pow2(n: nat): int {
    if n == 0 then 1 else 2 * Pow2(n - 1)
  }

  /** The backoff before the jitter, as the source's int and Duration arithmetic gives it. */
  function Backoff(initial: int, attempt: nat): int {
    WrapInt64(WrapInt64(initial * WrapInt64(Pow2(attempt))) * 1_000_000)
  }

  /** The argument of rand.Int64N, which panics unless it is positive. */
  function JitterRange(backoff: int): int {
    (if backoff >= 0 then backoff / 4 else -((-backoff) / 4)) + 1
  }

  /** initial doubled n times. */
  function Doubled(initial: int, n: nat): int {
    if n == 0 then initial else 2 * Doubled(initial, n - 1)
  }

  /** No wait of the policy leaves the 64-bit range, jitter included. */
  predicate InRange(initial: int, attempts: int) {
    attempts >= 2 ==> 5 * Doubled(initial, attempts - 2) * 1_000_000 <= 4 * 0x7fff_ffff_ffff_ffff
  }

  /** The attempt is neither cancelled nor interrupted. */
  ghost predicate Uncancelled(env: nat -> Attempt) {
    forall k :: !env(k).cancelled && !env(k).interrupted
  }

  ghost predicate AlwaysTemporary(env: nat -> Attempt) {
    forall k :: env(k).result == Temporary
  }

  /** The waiting before n calls, without jitter, in nanoseconds. */
  function BaseWait(initial: int, n: int): int {
    if n <= 1 then 0 else 1_000_000 * (Doubled(initial, n - 1) - initial)
  }

  lemma {:induction false} DoubledIsProduct(initial: int, n: nat)
    ensures Doubled(initial, n) == initial * Pow2(n)
  {
    if n > 0 {
      DoubledIsProduct(initial, n - 1);
    }
  }

  lemma {:induction false} DoubledGrows(initial: int, m: nat, n: nat)
    requires initial >= 1 && m <= n
    ensures 1 <= initial <= Doubled(initial, m) <= Doubled(initial, n)
    decreases n
  {
    if m < n {
      DoubledGrows(initial, m, n - 1);
    } else if n > 0 {
      DoubledGrows(initial, m - 1, n - 1);
    }
  }

  lemma PowerFits(initial: int, n: nat)
    requires initial >= 1
    ensures 1 <= Pow2(n) <= Doubled(initial, n)
  {
    DoubledIsProduct(1, n);
    DoubledGrows(1, 0, n);
    DoubledIsProduct(initial, n);
  }

  /** A power, its product with the initial backoff, and the duration all fit. */
  lemma ProductsFit(initial: int, power: int, product: int)
    requires 1 <= power <= product && product == initial * power
    requires 5 * product * 1_000_000 <= 4 * 0x7fff_ffff_ffff_ffff
    ensures WrapInt64(WrapInt64(initial * WrapInt64(power)) * 1_000_000) == product * 1_000_000
  {
    FitsInt64(power);
    FitsInt64(product);
    FitsInt64(product * 1_000_000);
  }

  /** Within range, a wait is the exact power of two and its jitter at most a quarter of it. */
  lemma BackoffExact(initial: int, attempt: nat, attempts: int)
    requires initial >= 1 && attempt + 2 <= attempts && InRange(initial, attempts)
    ensures Backoff(initial, attempt) == 1_000_000 * Doubled(initial, attempt)
    ensures BaseWait(initial, attempt + 2) == BaseWait(initial, attempt + 1) + Backoff(initial, attempt)
    ensures 1 <= initial <= Doubled(initial, attempt)
    ensures 5 * Backoff(initial, attempt) <= 4 * 0x7fff_ffff_ffff_ffff
  {
    DoubledGrows(initial, attempt, attempts - 2);
    PowerFits(initial, attempt);
    DoubledIsProduct(initial, attempt);
    ProductsFit(initial, Pow2(attempt), Doubled(initial, attempt));
  }

  /** BaseWait in closed form: I * (2^(n-1) - 1) milliseconds. */
  lemma BaseWaitClosed(initial: int, n: nat)
    requires n >= 1
    ensures BaseWait(initial, n) == initial * (Pow2(n - 1) - 1) * MILLISECOND
  {
    DoubledIsProduct(initial, n - 1);
  }

  lemma {:induction false} PowSplit(m: nat, n: nat)
    ensures Pow2(m + n) == Pow2(m) * Pow2(n)
  {
    if n > 0 {
      PowSplit(m, n - 1);
      assert Pow2(m + n) == 2 * Pow2(m + n - 1);
    }
  }

  /* ----- When drawing the jitter panics ----- */

  /** The initial backoff in nanoseconds, as the bits of a 64-bit word. */
  function InitialWord(initial: int): (w: int)
    ensures 0 <= w < TWO_64
  {
    (1_000_000 * initial) % 0x1_0000_0000_0000_0000
  }

  /** Doubling the word n times pushes a bit into or past the sign. */
  predicate Overflows(initial: int, n: nat) {
    InitialWord(initial) * Pow2(n) >= 0x8000_0000_0000_0000
  }

  lemma WrapIsCongruent(x: int)
    ensures WrapInt64(x) == x - TWO_64 * ((x + TWO_63) / TWO_64)
  {
  }

  lemma WrapUnique(x: int, y: int, k: int)
    requires x == y + TWO_64 * k
    ensures WrapInt64(x) == WrapInt64(y)
  {
  }

  /** Wrapping at every step is wrapping once. */
  lemma BackoffWord(initial: int, attempt: nat)
    ensures Backoff(initial, attempt) == WrapInt64(InitialWord(initial) * Pow2(attempt))
  {
    var p := Pow2(attempt);
    var k1, k2 := (p + TWO_63) / TWO_64, (initial * WrapInt64(p) + TWO_63) / TWO_64;
    var q := (1_000_000 * initial) / 0x1_0000_0000_0000_0000;
    WrapIsCongruent(p);
    WrapIsCongruent(initial * WrapInt64(p));
    var w := InitialWord(initial);
    assert 1_000_000 * initial == w + TWO_64 * q;
    calc {
      WrapInt64(initial * WrapInt64(p)) * 1_000_000;
      (initial * (p - TWO_64 * k1) - TWO_64 * k2) * 1_000_000;
      1_000_000 * initial * p - TWO_64 * (1_000_000 * (initial * k1 + k2));
      (w + TWO_64 * q) * p - TWO_64 * (1_000_000 * (initial * k1 + k2));
      w * p + TWO_64 * (q * p - 1_000_000 * (initial * k1 + k2));
    }
    WrapUnique(WrapInt64(initial * WrapInt64(p)) * 1_000_000, w * p, q * p - 1_000_000 * (initial * k1 + k2));
  }

  /** The word is a multiple of 64, and stays one. */
  lemma WordMultiple(initial: int, n: nat) returns (m: int)
    ensures InitialWord(initial) * Pow2(n) == 64 * m
  {
    var q := (1_000_000 * initial) / 0x1_0000_0000_0000_0000;
    var u := 15_625 * initial - 0x400_0000_0000_0000 * q;
    assert InitialWord(initial) == 64 * u;
    m := u * Pow2(n);
  }

  lemma {:induction false} PowPositive(n: nat)
    ensures Pow2(n) >= 1
  {
    if n > 0 {
      PowPositive(n - 1);
    }
  }

  /** Below the sign bit nothing panics. */
  lemma BelowSign(x: int)
    requires 0 <= x < TWO_63
    ensures JitterRange(WrapInt64(x)) > 0
  {
    FitsInt64(x);
  }

  /** With the sign bit set, the backoff is negative and the range of the draw is not positive. */
  lemma AtSign(x: int, m: int)
    requires TWO_63 <= x < TWO_64 && x == 64 * m
    ensures JitterRange(WrapInt64(x)) <= 0
  {
    assert WrapInt64(x) == x - TWO_64;
  }

  /** The first attempt whose doubled word reaches the sign bit. */
  lemma {:induction false} FirstOverflow(initial: int, n: nat) returns (a: nat)
    requires Overflows(initial, n)
    ensures a <= n && TWO_63 <= InitialWord(initial) * Pow2(a) < TWO_64
  {
    a := n;
    if n > 0 {
      if Overflows(initial, n - 1) {
        a := FirstOverflow(initial, n - 1);
      } else {
        assert InitialWord(initial) * Pow2(n) == 2 * (InitialWord(initial) * Pow2(n - 1));
      }
    }
  }

  lemma {:induction false} OverflowsLater(initial: int, a: nat, n: nat)
    requires a <= n && Overflows(initial, a)
    ensures Overflows(initial, n)
  {
    if a < n {
      OverflowsLater(initial, a, n - 1);
      assert InitialWord(initial) * Pow2(n) == 2 * (InitialWord(initial) * Pow2(n - 1));
    }
  }

  /** Drawing the jitter of this attempt panics. */
  predicate Panics(initial: int, attempt: nat) {
    JitterRange(Backoff(initial, attempt)) <= 0
  }

  lemma PanicNeedsOverflow(initial: int, attempt: nat)
    requires Panics(initial, attempt)
    ensures Overflows(initial, attempt)
  {
    BackoffWord(initial, attempt);
    PowPositive(attempt);
    if !Overflows(initial, attempt) {
      assert InitialWord(initial) * Pow2(attempt) >= 0;
      BelowSign(InitialWord(initial) * Pow2(attempt));
    }
  }

  /**
    For every initial backoff: some draw among attempts 0 to n panics exactly
    when the initial nanoseconds, as a 64-bit word, reach 2^63 after n doublings.
   */
  lemma PanicsIff(initial: int, n: nat)
    ensures (exists a: nat :: a <= n && Panics(initial, a)) <==> Overflows(initial, n)
  {
    if a: nat :| a <= n && Panics(initial, a) {
      PanicNeedsOverflow(initial, a);
      OverflowsLater(initial, a, n);
    }
    if Overflows(initial, n) {
      var a := FirstOverflow(initial, n);
      var m := WordMultiple(initial, a);
      BackoffWord(initial, a);
      AtSign(InitialWord(initial) * Pow2(a), m);
      assert Panics(initial, a);
    }
  }

  /** For an initial backoff that itself fits, the condition is 10^6 * I * 2^n >= 2^63. */
  lemma OverflowsInRange(initial: int, n: nat)
    requires initial >= 1 && 1_000_000 * initial < TWO_63
    ensures Overflows(initial, n) <==> 1_000_000 * Doubled(initial, n) >= TWO_63
  {
    DoubledIsProduct(initial, n);
    assert InitialWord(initial) == 1_000_000 * initial;
    assert InitialWord(initial) * Pow2(n) == 1_000_000 * (initial * Pow2(n));
  }

  lemma LargePowers()
    ensures Pow2(36) == 68_719_476_736 && Pow2(37) == 137_438_953_472
  {
    assert Pow2(9) == 512;
    PowSplit(9, 9);
    PowSplit(18, 18);
    assert Pow2(37) == 2 * Pow2(36);
  }

  lemma DefaultOverflows()
    ensures !Overflows(100, 36) && Overflows(100, 37)
  {
    LargePowers();
    assert InitialWord(100) == 100_000_000;
  }

  /** The default backoff of 100 ms panics in a policy of 39 attempts or more, and in no shorter one. */
  lemma DefaultBackoffPanics(attempts: int)
    requires attempts >= 2
    ensures (exists a: nat :: a <= attempts - 2 && Panics(100, a)) <==> attempts >= 39
  {
    var n := attempts - 2;
    PanicsIff(100, n);
    DefaultOverflows();
    if n >= 37 {
      OverflowsLater(100, 37, n);
    } else if Overflows(100, n) {
      OverflowsLater(100, n, 36);
    }
  }

  /** The length of one wait; None is the panic of rand.Int64N. */
  method Delay(initial: int, attempt: nat, random: nat, ghost attempts: int) returns (delay: Option<int>)
    ensures delay.None? <==> Panics(initial, attempt)
    ensures initial >= 1 && attempt + 2 <= attempts && InRange(initial, attempts) ==>
              && delay.Some?
              && var step := BaseWait(initial, attempt + 2) - BaseWait(initial, attempt + 1);
                 0 < step <= delay.value && 4 * delay.value <= 5 * step
  {
    var backoff := Backoff(initial, attempt);
    if JitterRange(backoff) <= 0 {
      if initial >= 1 && attempt + 2 <= attempts && InRange(initial, attempts) {
        BackoffExact(initial, attempt, attempts);
      }
      return None;
    }
    var jitter := Draw(random, JitterRange(backoff));
    if initial >= 1 && attempt + 2 <= attempts && InRange(initial, attempts) {
      BackoffExact(initial, attempt, attempts);
      JitterFits(backoff, jitter);
    }
    return Some(WrapInt64(backoff + jitter));
  }

  /** rand.Int64N: some value below a positive range. */
  method Draw(random: nat, range: int) returns (jitter: int)
    requires range > 0
    ensures 0 <= jitter < range
  {
    jitter := random % range;
  }

  lemma JitterFits(backoff: int, jitter: int)
    requires backoff >= 0 && 5 * backoff <= 4 * 0x7fff_ffff_ffff_ffff && 0 <= jitter < JitterRange(backoff)
    ensures WrapInt64(backoff + jitter) == backoff + jitter && 4 * jitter <= backoff
  {
  }

  lemma WaitsClosed(initial: int, n: int)
    ensures forall k: nat :: 1 <= k <= n ==> BaseWait(initial, k) == initial * (Pow2(k - 1) - 1) * MILLISECOND
  {
    forall k: nat | 1 <= k <= n ensures BaseWait(initial, k) == initial * (Pow2(k - 1) - 1) * MILLISECOND {
      BaseWaitClosed(initial, k);
    }
  }

  method Retry(attempts: int, initialMillis: int, hasOperation: bool, env: nat -> Attempt)
    returns (o: Outcome, calls: nat, waited: int)
    ensures !hasOperation ==> o == NoOperation && calls == 0
    ensures o == NoOperation ==> !hasOperation
    ensures calls <= Attempts(attempts) && Attempts(attempts) == if attempts < 1 then 1 else attempts
    ensures forall k :: 0 <= k < calls - 1 ==> env(k).result == Temporary
    ensures forall k :: 0 <= k < calls ==> !env(k).cancelled && (k < calls - 1 ==> !env(k).interrupted)
    ensures o.Cancelled? ==> env(calls).cancelled || (calls >= 1 && env(calls - 1).interrupted)
    ensures o.Panicked? ==> calls >= 1 && Panics(InitialBackoff(initialMillis), calls - 1)
    ensures o.Panicked? || o.Cancelled? ==> (calls >= 1 ==> env(calls - 1).result == Temporary && calls < Attempts(attempts))
    ensures o.Cancelled? ==> (calls >= 1 ==> !Panics(InitialBackoff(initialMillis), calls - 1))
    ensures o.Result? ==> calls >= 1 && o.r == env(calls - 1).result
    ensures o.Result? && o.r == Temporary ==> calls == Attempts(attempts)
    ensures hasOperation && Uncancelled(env) && AlwaysTemporary(env) ==>
              (o.Panicked? <==> attempts >= 2 && Overflows(InitialBackoff(initialMillis), attempts - 2))
    ensures hasOperation && Uncancelled(env) && InRange(InitialBackoff(initialMillis), Attempts(attempts)) ==>
              && o.Result?
              && BaseWait(InitialBackoff(initialMillis), calls) <= waited
              && 4 * waited <= 5 * BaseWait(InitialBackoff(initialMillis), calls)
    ensures var ms := if initialMillis < 1 then 100 else initialMillis;
            hasOperation && Uncancelled(env) && InRange(ms, Attempts(attempts)) ==>
              && calls >= 1
              && var base := ms * (Pow2(calls - 1) - 1) * MILLISECOND;
                 base <= waited && 4 * waited <= 5 * base
  {
    calls, waited := 0, 0;
    if !hasOperation {
      return NoOperation, calls, waited;
    }
    var n, initial := Attempts(attempts), InitialBackoff(initialMillis);
    ghost var plain := Uncancelled(env) && InRange(initial, n);
    var attempt: nat := 0;
    if hasOperation && plain {
      WaitsClosed(initial, n);
    }
    while attempt < n
      invariant attempt <= n - 1
      invariant calls == attempt
      invariant forall k :: 0 <= k < calls ==> env(k).result == Temporary && !env(k).cancelled && !env(k).interrupted
      invariant forall a: nat :: a < attempt ==> !Panics(initial, a)
      invariant plain ==> BaseWait(initial, attempt + 1) <= waited && 4 * waited <= 5 * BaseWait(initial, attempt + 1)
    {
      if env(attempt).cancelled {
        return Cancelled, calls, waited;
      }
      calls := calls + 1;
      var last := env(attempt).result;
      if last != Temporary {
        return Result(last), calls, waited;
      }
      if attempt + 1 == n {
        if n >= 2 {
          PanicsIff(initial, n - 2);
        }
        return Result(last), calls, waited;
      }
      var delay := Delay(initial, attempt, env(attempt).random, n);
      if delay.None? {
        PanicsIff(initial, n - 2);
        return Panicked, calls, waited;
      }
      if env(attempt).interrupted {
        return Cancelled, calls, waited;
      }
      waited := waited + if delay.value > 0 then delay.value else 0;
      attempt := attempt + 1;
    }
    assert false;
  }
}
