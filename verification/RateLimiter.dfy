/**
  The API's token buckets with idle sweeping. Times are integer nanoseconds,
  tokens are exact reals instead of float64.
 */
module RateLimiter {
  import opened Clock

  const MINUTE: int := 60_000_000_000
  const IDLE_LIMIT: int := 600_000_000_000

  datatype Bucket = Bucket(tokens: real, last: Time)

  datatype Limits = Limits(limit: real, burst: real) {
    /** What `newRateLimiter` establishes: both are positive integers. */
    predicate Valid() {
      limit >= 1.0 && burst >= 1.0
    }

    /** A bucket left alone for ten minutes is full again. */
    predicate SweepSafe() {
      burst <= 600.0 * limit
    }
  }

  function NewLimits(limit: int, burst: int): (l: Limits)
    ensures l.Valid()
    ensures l.limit == (if limit <= 0 then 30 else limit) as real
    ensures l.burst == (if burst <= 0 then 60 else burst) as real
    ensures limit > 0 && burst > 0 ==> (l.SweepSafe() <==> burst <= 600 * limit)
  {
    Limits(if limit <= 0 then 30.0 else limit as real, if burst <= 0 then 60.0 else burst as real)
  }

  function ToSeconds(d: int): real {
    d as real / 1_000_000_000.0
  }

  /* ----- Specification ----- */

  /** The tokens in a bucket at `now`, before the request takes one. */
  function Refilled(l: Limits, b: Bucket, now: Time): real {
    var tokens := b.tokens + ToSeconds(now - b.last) * l.limit;
    if tokens > l.burst then l.burst else tokens
  }

  function Take(tokens: real, now: Time): (bool, Bucket) {
    if tokens >= 1.0 then (true, Bucket(tokens - 1.0, now)) else (false, Bucket(tokens, now))
  }

  datatype State = State(buckets: map<string, Bucket>, lastSweep: Time)

  function Sweep(s: State, now: Time): State {
    if now - s.lastSweep >= MINUTE
    then State(map k | k in s.buckets && now - s.buckets[k].last < IDLE_LIMIT :: s.buckets[k], now)
    else s
  }

  function Admit(l: Limits, s: State, key: string, now: Time): (bool, State) {
    var b := if key in s.buckets then s.buckets[key] else Bucket(l.burst, now);
    var (ok, after) := Take(Refilled(l, b, now), now);
    (ok, s.(buckets := s.buckets[key := after]))
  }

  /** One call of `allow`; without sweeping it is `Admit` alone. */
  function Allowed(l: Limits, s: State, key: string, now: Time, sweeping: bool): (bool, State) {
    Admit(l, if sweeping then Sweep(s, now) else s, key, now)
  }

  class Limiter {
    const limits: Limits
    var buckets: map<string, Bucket>
    var lastSweep: Time

    ghost function Abstract(): State
      reads this
    {
      State(buckets, lastSweep)
    }

    constructor (limit: int, burst: int, now: Time)
      ensures limits == NewLimits(limit, burst)
      ensures Abstract() == State(map[], now)
    {
      limits := NewLimits(limit, burst);
      buckets := map[];
      lastSweep := now;
    }

    method Allow(key: string, now: Time) returns (ok: bool)
      modifies this
      ensures (ok, Abstract()) == Allowed(limits, old(Abstract()), key, now, true)
    {
      if now - lastSweep >= MINUTE {
        var rest := buckets.Keys;
        while rest != {}
          invariant rest <= old(buckets).Keys
          invariant buckets == map k | k in old(buckets) && (k in rest || now - old(buckets)[k].last < IDLE_LIMIT)
                                 :: old(buckets)[k]
          invariant lastSweep == old(lastSweep)
        {
          var bucketKey :| bucketKey in rest;
          if now - buckets[bucketKey].last >= IDLE_LIMIT {
            buckets := buckets - {bucketKey};
          }
          rest := rest - {bucketKey};
        }
        lastSweep := now;
      }
      assert Abstract() == Sweep(old(Abstract()), now);
      if key !in buckets {
        buckets := buckets[key := Bucket(limits.burst, now)];
      }
      var bucket := buckets[key];
      ghost var found := bucket;
      var elapsed := ToSeconds(now - bucket.last);
      bucket := Bucket(bucket.tokens + elapsed * limits.limit, now);
      if bucket.tokens > limits.burst {
        bucket := bucket.(tokens := limits.burst);
      }
      assert bucket == Bucket(Refilled(limits, found, now), now);
      if bucket.tokens >= 1.0 {
        bucket := bucket.(tokens := bucket.tokens - 1.0);
        buckets := buckets[key := bucket];
        assert buckets == Sweep(old(Abstract()), now).buckets[key := bucket];
        return true;
      }
      buckets := buckets[key := bucket];
      assert buckets == Sweep(old(Abstract()), now).buckets[key := bucket];
      return false;
    }
  }

  /**
    A minute after the last sweep, a request forgets exactly the other keys' buckets
    that have been idle for ten minutes; before that it forgets nothing.
   */
  lemma ForgetsIdle(l: Limits, s: State, key: string, now: Time, other: string)
    requires other != key
    ensures var after := Allowed(l, s, key, now, true).1;
            && (other in after.buckets <==>
                  other in s.buckets
                  && (now - s.lastSweep < 60_000_000_000 || now - s.buckets[other].last < 600_000_000_000))
            && (other in after.buckets ==> after.buckets[other] == s.buckets[other])
  {
  }

  /* ----- Runs of requests ----- */

  datatype Request = Request(key: string, at: Time)

  predicate Chronological(start: Time, trace: seq<Request>) {
    && (forall i :: 0 <= i < |trace| ==> start <= trace[i].at)
    && (forall i, j :: 0 <= i < j < |trace| ==> trace[i].at <= trace[j].at)
  }

  function After(l: Limits, start: Time, trace: seq<Request>, sweeping: bool): State {
    if trace == [] then State(map[], start)
    else
      var n := |trace| - 1;
      Allowed(l, After(l, start, trace[..n], sweeping), trace[n].key, trace[n].at, sweeping).1
  }

  /** The decision on the last request of the trace. */
  function Decision(l: Limits, start: Time, trace: seq<Request>, sweeping: bool): bool
    requires trace != []
  {
    var n := |trace| - 1;
    Allowed(l, After(l, start, trace[..n], sweeping), trace[n].key, trace[n].at, sweeping).0
  }

  /** The request times of one key. */
  function TimesOf(trace: seq<Request>, key: string): seq<Time> {
    if trace == [] then []
    else
      var n := |trace| - 1;
      TimesOf(trace[..n], key) + if trace[n].key == key then [trace[n].at] else []
  }

  /** One bucket on its own: the last decision and the bucket after the given request times. */
  function Alone(l: Limits, times: seq<Time>): (bool, Bucket)
    requires times != []
  {
    var n := |times| - 1;
    if n == 0 then Take(Refilled(l, Bucket(l.burst, times[0]), times[0]), times[0])
    else Take(Refilled(l, Alone(l, times[..n]).1, times[n]), times[n])
  }

  predicate Ascending(times: seq<Time>) {
    forall i, j :: 0 <= i < j < |times| ==> times[i] <= times[j]
  }

  lemma {:induction false} AloneBounds(l: Limits, times: seq<Time>)
    requires l.Valid() && times != [] && Ascending(times)
    ensures var b := Alone(l, times).1;
            0.0 <= b.tokens <= l.burst && b.last == times[|times| - 1]
  {
    var n := |times| - 1;
    if n > 0 {
      AloneBounds(l, times[..n]);
      RefillNonNegative(l, Alone(l, times[..n]).1, times[n]);
    }
  }

  lemma RefillNonNegative(l: Limits, b: Bucket, now: Time)
    requires l.Valid() && b.last <= now && b.tokens >= 0.0
    ensures Refilled(l, b, now) >= 0.0
  {
    assert ToSeconds(now - b.last) * l.limit >= 0.0;
  }

  /** After ten idle minutes a bucket is as good as a new one. */
  lemma IdleIsFull(l: Limits, b: Bucket, now: Time)
    requires l.Valid() && l.SweepSafe() && b.tokens >= 0.0 && now - b.last >= IDLE_LIMIT
    ensures Refilled(l, b, now) == l.burst == Refilled(l, Bucket(l.burst, now), now)
  {
    var s := ToSeconds(now - b.last);
    assert s >= 600.0;
    assert s * l.limit >= 600.0 * l.limit;
    assert ToSeconds(now - now) == 0.0;
  }

  /** A swept bucket is one that was idle for ten minutes at some sweep. */
  ghost predicate Represents(l: Limits, s: State, key: string, times: seq<Time>) {
    if times == [] then key !in s.buckets
    else
      var b := Alone(l, times).1;
      if key in s.buckets then s.buckets[key] == b else s.lastSweep - b.last >= IDLE_LIMIT
  }

  lemma TimesOfSnoc(trace: seq<Request>, r: Request, key: string)
    ensures TimesOf(trace + [r], key) == TimesOf(trace, key) + if r.key == key then [r.at] else []
  {
    assert (trace + [r])[..|trace|] == trace;
  }

  lemma {:induction false} TimesAscend(start: Time, trace: seq<Request>, key: string)
    requires Chronological(start, trace)
    ensures var times := TimesOf(trace, key);
            && Ascending(times)
            && (forall i :: 0 <= i < |times| ==> trace != [] && start <= times[i] <= trace[|trace| - 1].at)
  {
    if trace != [] {
      var n := |trace| - 1;
      TimesAscend(start, trace[..n], key);
      assert n > 0 ==> trace[n - 1].at <= trace[n].at;
      assert start <= trace[n].at;
    }
  }

  lemma SweepKeepsMeaning(l: Limits, s: State, key: string, times: seq<Time>, now: Time)
    requires Represents(l, s, key, times) && s.lastSweep <= now
    ensures Represents(l, Sweep(s, now), key, times)
  {
  }

  /** A request for the key itself finds the bucket it would have on its own. */
  lemma AdmitOwn(l: Limits, s: State, key: string, times: seq<Time>, now: Time)
    requires l.Valid() && Represents(l, s, key, times) && s.lastSweep <= now
    requires l.SweepSafe() || times == [] || key in s.buckets
    requires Ascending(times + [now])
    ensures Admit(l, s, key, now).0 == Alone(l, times + [now]).0
    ensures Represents(l, Admit(l, s, key, now).1, key, times + [now])
  {
    assert (times + [now])[..|times|] == times;
    if times != [] && key !in s.buckets {
      forall i, j | 0 <= i < j < |times| ensures times[i] <= times[j] {
        assert (times + [now])[i] <= (times + [now])[j];
      }
      AloneBounds(l, times);
      IdleIsFull(l, Alone(l, times).1, now);
    }
  }

  lemma AdmitOther(l: Limits, s: State, key: string, times: seq<Time>, other: string, now: Time)
    requires Represents(l, s, key, times) && other != key
    ensures Represents(l, Admit(l, s, other, now).1, key, times)
  {
  }

  /** The limiter's state after a run represents every key's own bucket. */
  ghost predicate Faithful(l: Limits, start: Time, trace: seq<Request>, key: string, sweeping: bool) {
    var s := After(l, start, trace, sweeping);
    && Represents(l, s, key, TimesOf(trace, key))
    && (!sweeping ==> s.lastSweep == start && (key in s.buckets <==> TimesOf(trace, key) != []))
    && (if trace == [] then s.lastSweep == start else s.lastSweep <= trace[|trace| - 1].at)
  }

  lemma FaithfulStep(l: Limits, start: Time, trace: seq<Request>, r: Request, key: string, sweeping: bool)
    requires l.Valid() && (sweeping ==> l.SweepSafe()) && Chronological(start, trace + [r])
    requires Faithful(l, start, trace, key, sweeping)
    ensures Faithful(l, start, trace + [r], key, sweeping)
    ensures r.key == key ==>
              && TimesOf(trace + [r], key) == TimesOf(trace, key) + [r.at]
              && Decision(l, start, trace + [r], sweeping) == Alone(l, TimesOf(trace, key) + [r.at]).0
  {
    var s := After(l, start, trace, sweeping);
    var times := TimesOf(trace, key);
    assert (trace + [r])[..|trace|] == trace;
    TimesOfSnoc(trace, r, key);
    TimesAscend(start, trace + [r], key);
    assert start <= (trace + [r])[|trace|].at;
    assert trace != [] ==> (trace + [r])[|trace| - 1].at <= (trace + [r])[|trace|].at;
    if sweeping {
      SweepKeepsMeaning(l, s, key, times, r.at);
    }
    var swept := if sweeping then Sweep(s, r.at) else s;
    if r.key == key {
      AdmitOwn(l, swept, key, times, r.at);
    } else {
      AdmitOther(l, swept, key, times, r.key, r.at);
      assert times + [] == times;
    }
  }

  lemma {:induction false} AlwaysFaithful(l: Limits, start: Time, trace: seq<Request>, key: string, sweeping: bool)
    requires l.Valid() && (sweeping ==> l.SweepSafe()) && Chronological(start, trace)
    ensures Faithful(l, start, trace, key, sweeping)
  {
    if trace != [] {
      var n := |trace| - 1;
      AlwaysFaithful(l, start, trace[..n], key, sweeping);
      assert trace == trace[..n] + [trace[n]];
      FaithfulStep(l, start, trace[..n], trace[n], key, sweeping);
    }
  }

  lemma DecisionIsAlone(l: Limits, start: Time, trace: seq<Request>, sweeping: bool)
    requires l.Valid() && (sweeping ==> l.SweepSafe()) && Chronological(start, trace) && trace != []
    ensures TimesOf(trace, trace[|trace| - 1].key) != []
    ensures Decision(l, start, trace, sweeping) == Alone(l, TimesOf(trace, trace[|trace| - 1].key)).0
  {
    var n := |trace| - 1;
    assert trace == trace[..n] + [trace[n]];
    AlwaysFaithful(l, start, trace[..n], trace[n].key, sweeping);
    FaithfulStep(l, start, trace[..n], trace[n], trace[n].key, sweeping);
  }

  /**
    Sweeping is unobservable and keys do not interfere: every decision of the
    sweeping limiter is that of one that never forgets, and depends only on the
    times at which its own key was used.
   */
  lemma SweepUnobservable(l: Limits, start: Time, trace: seq<Request>)
    requires l.Valid() && l.SweepSafe() && Chronological(start, trace) && trace != []
    ensures TimesOf(trace, trace[|trace| - 1].key) != []
    ensures Decision(l, start, trace, true)
            == Decision(l, start, trace, false)
            == Alone(l, TimesOf(trace, trace[|trace| - 1].key)).0
  {
    DecisionIsAlone(l, start, trace, true);
    DecisionIsAlone(l, start, trace, false);
  }

  /* ----- How many requests are admitted ----- */

  /** Requests of one key admitted at times in [from, to]. */
  function AdmittedAlone(l: Limits, times: seq<Time>, from: Time, to: Time): nat {
    if times == [] then 0
    else
      var n := |times| - 1;
      AdmittedAlone(l, times[..n], from, to) + One(from <= times[n] <= to && Alone(l, times).0)
  }

  lemma Flow(l: Limits, a: Time, b: Time, c: Time)
    ensures ToSeconds(b - a) * l.limit + ToSeconds(c - b) * l.limit == ToSeconds(c - a) * l.limit
  {
    assert ToSeconds(c - a) == ToSeconds(b - a) + ToSeconds(c - b);
  }

  lemma InflowNonNegative(l: Limits, d: int)
    requires l.Valid() && d >= 0
    ensures ToSeconds(d) * l.limit >= 0.0
  {
  }

  /** Tokens left plus requests admitted since `from` never exceed the burst plus what has flowed in. */
  ghost predicate Budgeted(l: Limits, count: real, b: Bucket, from: Time) {
    count + b.tokens <= l.burst + ToSeconds(b.last - from) * l.limit
  }

  function One(ok: bool): nat {
    if ok then 1 else 0
  }

  /** The first request at or after `from`. */
  lemma BudgetFirst(l: Limits, b: Bucket, now: Time, from: Time)
    requires l.Valid() && from <= now
    ensures var (ok, after) := Take(Refilled(l, b, now), now);
            Budgeted(l, One(ok) as real, after, from)
  {
    InflowNonNegative(l, now - from);
  }

  /** Each later request takes from what was left and what has flowed in. */
  lemma BudgetStep(l: Limits, b: Bucket, now: Time, from: Time, count: nat)
    requires l.Valid() && from <= b.last <= now && Budgeted(l, count as real, b, from)
    ensures var (ok, after) := Take(Refilled(l, b, now), now);
            Budgeted(l, (count + One(ok)) as real, after, from)
  {
    Flow(l, from, b.last, now);
    InflowNonNegative(l, now - from);
  }

  lemma {:induction false} NoneBefore(l: Limits, times: seq<Time>, from: Time, to: Time)
    requires forall i :: 0 <= i < |times| ==> times[i] < from
    ensures AdmittedAlone(l, times, from, to) == 0
  {
    if times != [] {
      NoneBefore(l, times[..|times| - 1], from, to);
    }
  }

  lemma {:induction false} Budget(l: Limits, times: seq<Time>, from: Time, to: Time)
    requires l.Valid() && Ascending(times) && times != [] && from <= times[|times| - 1] <= to
    ensures Budgeted(l, AdmittedAlone(l, times, from, to) as real, Alone(l, times).1, from)
  {
    var n := |times| - 1;
    if n > 0 && from <= times[n - 1] {
      Budget(l, times[..n], from, to);
      AloneBounds(l, times[..n]);
      BudgetStep(l, Alone(l, times[..n]).1, times[n], from, AdmittedAlone(l, times[..n], from, to));
    } else {
      NoneBefore(l, times[..n], from, to);
      BudgetFirst(l, if n == 0 then Bucket(l.burst, times[0]) else Alone(l, times[..n]).1, times[n], from);
    }
  }

  lemma BudgetEnds(l: Limits, count: real, b: Bucket, from: Time, to: Time)
    requires l.Valid() && b.last <= to && b.tokens >= 0.0 && Budgeted(l, count, b, from)
    ensures count <= l.burst + ToSeconds(to - from) * l.limit
  {
    Flow(l, from, b.last, to);
    InflowNonNegative(l, to - b.last);
  }

  lemma {:induction false} AdmissionBoundAlone(l: Limits, times: seq<Time>, from: Time, to: Time)
    requires l.Valid() && Ascending(times) && from <= to
    ensures AdmittedAlone(l, times, from, to) as real <= l.burst + ToSeconds(to - from) * l.limit
  {
    if times == [] || times[|times| - 1] < from {
      NoneBefore(l, times, from, to);
      InflowNonNegative(l, to - from);
    } else if times[|times| - 1] <= to {
      Budget(l, times, from, to);
      AloneBounds(l, times);
      BudgetEnds(l, AdmittedAlone(l, times, from, to) as real, Alone(l, times).1, from, to);
    } else {
      AdmissionBoundAlone(l, times[..|times| - 1], from, to);
    }
  }

  /** Requests of `key` that the sweeping limiter admits at times in [from, to]. */
  function AdmittedInWindow(l: Limits, start: Time, trace: seq<Request>, key: string, from: Time, to: Time): nat {
    if trace == [] then 0
    else
      var n := |trace| - 1;
      AdmittedInWindow(l, start, trace[..n], key, from, to)
      + One(trace[n].key == key && from <= trace[n].at <= to && Decision(l, start, trace, true))
  }

  lemma {:induction false} WindowIsAlone(l: Limits, start: Time, trace: seq<Request>, key: string, from: Time, to: Time)
    requires l.Valid() && l.SweepSafe() && Chronological(start, trace)
    ensures AdmittedInWindow(l, start, trace, key, from, to) == AdmittedAlone(l, TimesOf(trace, key), from, to)
  {
    if trace != [] {
      var n := |trace| - 1;
      var times := TimesOf(trace[..n], key);
      WindowIsAlone(l, start, trace[..n], key, from, to);
      if trace[n].key == key {
        DecisionIsAlone(l, start, trace, true);
        assert TimesOf(trace, key) == times + [trace[n].at];
        assert (times + [trace[n].at])[..|times|] == times;
      } else {
        assert TimesOf(trace, key) == times;
      }
    }
  }

  /**
    Admission bound over every run: in any window of d seconds a key is admitted
    at most burst + limit * d times, even when sweeps delete and recreate its bucket.
   */
  lemma AdmissionBound(l: Limits, start: Time, trace: seq<Request>, key: string, from: Time, to: Time)
    requires l.Valid() && l.SweepSafe() && Chronological(start, trace) && from <= to
    ensures AdmittedInWindow(l, start, trace, key, from, to) as real <= l.burst + ToSeconds(to - from) * l.limit
  {
    WindowIsAlone(l, start, trace, key, from, to);
    TimesAscend(start, trace, key);
    AdmissionBoundAlone(l, TimesOf(trace, key), from, to);
  }

  /** Consecutive requests of the key are at least 1/limit seconds apart. */
  predicate Spaced(l: Limits, times: seq<Time>) {
    forall i :: 0 < i < |times| ==> TokenApart(l, times[i - 1], times[i])
  }

  /** Between the two instants at least one token flows in. */
  predicate TokenApart(l: Limits, a: Time, b: Time) {
    a <= b && ToSeconds(b - a) * l.limit >= 1.0
  }

  lemma SpacedStep(l: Limits, b: Bucket, now: Time)
    requires l.Valid() && 0.0 <= b.tokens && TokenApart(l, b.last, now)
    ensures var (ok, after) := Take(Refilled(l, b, now), now);
            ok && 0.0 <= after.tokens && after.last == now
  {
  }

  lemma SpacedFirst(l: Limits, now: Time)
    requires l.Valid()
    ensures var (ok, after) := Take(Refilled(l, Bucket(l.burst, now), now), now);
            ok && 0.0 <= after.tokens && after.last == now
  {
    assert ToSeconds(now - now) == 0.0;
  }

  /** A bucket that is there has no debt and was last used at the key's last request. */
  predicate LastUsed(s: State, key: string, times: seq<Time>) {
    key in s.buckets ==> times != [] && s.buckets[key].last == times[|times| - 1] && s.buckets[key].tokens >= 0.0
  }

  lemma SpacedOwn(l: Limits, s: State, key: string, times: seq<Time>, now: Time)
    requires l.Valid() && LastUsed(s, key, times) && Spaced(l, times + [now])
    ensures Admit(l, s, key, now).0
    ensures LastUsed(Admit(l, s, key, now).1, key, times + [now])
  {
    if key in s.buckets {
      assert (times + [now])[|times|] == now && (times + [now])[|times| - 1] == times[|times| - 1];
      SpacedStep(l, s.buckets[key], now);
    } else {
      SpacedFirst(l, now);
    }
  }

  lemma {:induction false} SpacedRun(l: Limits, start: Time, trace: seq<Request>, key: string, sweeping: bool)
    requires l.Valid() && Spaced(l, TimesOf(trace, key))
    ensures LastUsed(After(l, start, trace, sweeping), key, TimesOf(trace, key))
    ensures trace != [] && trace[|trace| - 1].key == key ==> Decision(l, start, trace, sweeping)
  {
    if trace != [] {
      var n := |trace| - 1;
      var times := TimesOf(trace[..n], key);
      assert forall i :: 0 <= i < |times| ==> TimesOf(trace, key)[i] == times[i];
      SpacedRun(l, start, trace[..n], key, sweeping);
      var s := MaybeSwept(After(l, start, trace[..n], sweeping), trace[n].at, sweeping);
      if trace[n].key == key {
        SpacedOwn(l, s, key, times, trace[n].at);
      }
    }
  }

  /**
    A key whose requests keep the sustained rate is never refused, whatever the
    limits: a swept bucket comes back full.
   */
  lemma SpacedNeverRefused(l: Limits, start: Time, trace: seq<Request>)
    requires l.Valid() && trace != []
    requires Spaced(l, TimesOf(trace, trace[|trace| - 1].key))
    ensures Decision(l, start, trace, true)
  {
    SpacedRun(l, start, trace, trace[|trace| - 1].key, true);
  }

  /* ----- Exactly which requests are admitted ----- */

  /** Requests of the key at positions from i on that are admitted. */
  function AdmittedSince(l: Limits, start: Time, trace: seq<Request>, key: string, i: nat, sweeping: bool): nat {
    if |trace| <= i then 0
    else
      var n := |trace| - 1;
      AdmittedSince(l, start, trace[..n], key, i, sweeping) + One(trace[n].key == key && Decision(l, start, trace, sweeping))
  }

  lemma AdmittedSnoc(l: Limits, start: Time, trace: seq<Request>, r: Request, key: string, i: nat, sweeping: bool)
    requires i <= |trace|
    ensures AdmittedSince(l, start, trace + [r], key, i, sweeping)
            == AdmittedSince(l, start, trace, key, i, sweeping) + One(r.key == key && Decision(l, start, trace + [r], sweeping))
  {
    assert (trace + [r])[..|trace|] == trace;
  }

  /** What a window leaves of its bound after this many admissions. */
  function RoomLeft(l: Limits, from: Time, to: Time, admitted: nat): real {
    l.burst + ToSeconds(to - from) * l.limit - admitted as real
  }

  lemma RoomTaken(l: Limits, from: Time, to: Time, admitted: nat, taken: nat)
    ensures RoomLeft(l, from, to, admitted + taken) == RoomLeft(l, from, to, admitted) - taken as real
  {
  }

  /** The window from position i to `now`. */
  function Room(l: Limits, start: Time, trace: seq<Request>, i: nat, now: Time): real
    requires i < |trace|
  {
    RoomLeft(l, trace[i].at, now, AdmittedSince(l, start, trace, trace[i].key, i, false))
  }

  /** The room of every window, and which windows start at a request of the key. */
  function Rooms(l: Limits, start: Time, trace: seq<Request>, now: Time): seq<real> {
    seq(|trace|, i requires 0 <= i < |trace| => Room(l, start, trace, i, now))
  }

  function Own(trace: seq<Request>, key: string): seq<bool> {
    seq(|trace|, i requires 0 <= i < |trace| => trace[i].key == key)
  }

  /** The level is the least of the marked rooms. */
  ghost predicate LeastOf(level: real, rooms: seq<real>, own: seq<bool>)
    requires |rooms| == |own|
  {
    && (forall i :: 0 <= i < |rooms| && own[i] ==> level <= rooms[i])
    && (exists i :: 0 <= i < |rooms| && own[i] && level == rooms[i])
  }

  /** The level is the least of the marked rooms and the burst. */
  ghost predicate FoundIn(level: real, rooms: seq<real>, own: seq<bool>, burst: real)
    requires |rooms| == |own|
  {
    && level <= burst
    && (forall i :: 0 <= i < |rooms| && own[i] ==> level <= rooms[i])
    && (level == burst || exists i :: 0 <= i < |rooms| && own[i] && level == rooms[i])
  }

  lemma LeastGrows(level: real, rooms: seq<real>, own: seq<bool>, flow: real, grown: seq<real>, burst: real)
    requires |rooms| == |own| == |grown| && LeastOf(level, rooms, own)
    requires forall i :: 0 <= i < |rooms| ==> grown[i] == rooms[i] + flow
    ensures FoundIn(if level + flow > burst then burst else level + flow, grown, own, burst)
  {
    var i :| 0 <= i < |rooms| && own[i] && level == rooms[i];
    assert level + flow == grown[i];
  }

  lemma RoomsGrow(l: Limits, start: Time, trace: seq<Request>, a: Time, b: Time, flow: real)
    requires flow == ToSeconds(b - a) * l.limit
    ensures forall i :: 0 <= i < |trace| ==> Rooms(l, start, trace, b)[i] == Rooms(l, start, trace, a)[i] + flow
  {
    forall i | 0 <= i < |trace| ensures Room(l, start, trace, i, b) == Room(l, start, trace, i, a) + flow {
      Flow(l, trace[i].at, a, b);
    }
  }

  ghost predicate LevelOk(l: Limits, start: Time, trace: seq<Request>, key: string) {
    var s := After(l, start, trace, false);
    if key in s.buckets
    then LeastOf(s.buckets[key].tokens, Rooms(l, start, trace, s.buckets[key].last), Own(trace, key))
    else forall i :: 0 <= i < |trace| ==> trace[i].key != key
  }

  lemma RefilledIs(l: Limits, b: Bucket, now: Time, flow: real)
    requires flow == ToSeconds(now - b.last) * l.limit
    ensures Refilled(l, b, now) == if b.tokens + flow > l.burst then l.burst else b.tokens + flow
  {
  }

  /** What a request finds is the least room, or the burst. */
  lemma LevelFound(l: Limits, start: Time, trace: seq<Request>, key: string, now: Time, level: real)
    requires LevelOk(l, start, trace, key) && level == Available(l, After(l, start, trace, false), key, now)
    ensures FoundIn(level, Rooms(l, start, trace, now), Own(trace, key), l.burst)
  {
    var s := After(l, start, trace, false);
    if key in s.buckets {
      BucketFound(l, start, trace, key, s.buckets[key], now);
    } else {
      NewBucketFound(l, now);
    }
  }

  lemma NewBucketFound(l: Limits, now: Time)
    ensures Refilled(l, Bucket(l.burst, now), now) == l.burst
  {
    assert ToSeconds(now - now) == 0.0;
    RefilledIs(l, Bucket(l.burst, now), now, 0.0);
  }

  /** What flows into the bucket widens every window alike. */
  lemma Inflow(l: Limits, start: Time, trace: seq<Request>, b: Bucket, now: Time) returns (flow: real)
    ensures Refilled(l, b, now) == if b.tokens + flow > l.burst then l.burst else b.tokens + flow
    ensures forall i :: 0 <= i < |trace| ==> Rooms(l, start, trace, now)[i] == Rooms(l, start, trace, b.last)[i] + flow
  {
    flow := ToSeconds(now - b.last) * l.limit;
    RefilledIs(l, b, now, flow);
    RoomsGrow(l, start, trace, b.last, now, flow);
  }

  lemma BucketFound(l: Limits, start: Time, trace: seq<Request>, key: string, b: Bucket, now: Time)
    requires LeastOf(b.tokens, Rooms(l, start, trace, b.last), Own(trace, key))
    ensures FoundIn(Refilled(l, b, now), Rooms(l, start, trace, now), Own(trace, key), l.burst)
  {
    var flow := Inflow(l, start, trace, b, now);
    LeastGrows(b.tokens, Rooms(l, start, trace, b.last), Own(trace, key), flow, Rooms(l, start, trace, now), l.burst);
  }

  /** Taking from the level lowers the marked rooms alike, and adds one that starts at the burst. */
  lemma LeastAfter(level: real, rooms: seq<real>, own: seq<bool>, burst: real, taken: real, after: seq<real>)
    requires |rooms| == |own| && FoundIn(level, rooms, own, burst) && |after| == |rooms| + 1
    requires forall i :: 0 <= i < |rooms| && own[i] ==> after[i] == rooms[i] - taken
    requires after[|rooms|] == burst - taken
    ensures LeastOf(level - taken, after, own + [true])
  {
    var marked := own + [true];
    if level == burst {
      assert marked[|rooms|] && level - taken == after[|rooms|];
    } else {
      var i :| 0 <= i < |rooms| && own[i] && level == rooms[i];
      assert marked[i] && level - taken == after[i];
    }
  }

  lemma RoomAfter(l: Limits, start: Time, trace: seq<Request>, r: Request, i: nat, taken: nat)
    requires i < |trace| && trace[i].key == r.key && taken == One(Decision(l, start, trace + [r], false))
    ensures Room(l, start, trace + [r], i, r.at) == Room(l, start, trace, i, r.at) - taken as real
  {
    AdmittedSnoc(l, start, trace, r, r.key, i, false);
    assert (trace + [r])[i] == trace[i];
    RoomTaken(l, trace[i].at, r.at, AdmittedSince(l, start, trace, r.key, i, false), taken);
  }

  lemma RoomOfLast(l: Limits, start: Time, trace: seq<Request>, r: Request, taken: nat)
    requires taken == One(Decision(l, start, trace + [r], false))
    ensures Room(l, start, trace + [r], |trace|, r.at) == l.burst - taken as real
  {
    AdmittedSnoc(l, start, trace, r, r.key, |trace|, false);
    assert ToSeconds(r.at - r.at) == 0.0;
  }

  lemma RoomsAfter(l: Limits, start: Time, trace: seq<Request>, r: Request, taken: nat)
    requires taken == One(Decision(l, start, trace + [r], false))
    ensures var after := Rooms(l, start, trace + [r], r.at);
            && (forall i :: 0 <= i < |trace| && trace[i].key == r.key ==>
                  after[i] == Rooms(l, start, trace, r.at)[i] - taken as real)
            && after[|trace|] == l.burst - taken as real
  {
    forall i | 0 <= i < |trace| && trace[i].key == r.key
      ensures Rooms(l, start, trace + [r], r.at)[i] == Rooms(l, start, trace, r.at)[i] - taken as real
    {
      RoomAfter(l, start, trace, r, i, taken);
    }
    RoomOfLast(l, start, trace, r, taken);
  }

  lemma RoomsOfOther(l: Limits, start: Time, trace: seq<Request>, r: Request, key: string, now: Time)
    requires r.key != key
    ensures forall i :: 0 <= i < |trace| && trace[i].key == key ==>
                          Rooms(l, start, trace + [r], now)[i] == Rooms(l, start, trace, now)[i]
  {
    forall i | 0 <= i < |trace| && trace[i].key == key
      ensures Room(l, start, trace + [r], i, now) == Room(l, start, trace, i, now)
    {
      AdmittedSnoc(l, start, trace, r, key, i, false);
    }
  }

  lemma LeastUnmarked(level: real, rooms: seq<real>, own: seq<bool>, after: seq<real>)
    requires |rooms| == |own| && LeastOf(level, rooms, own) && |after| == |rooms| + 1
    requires forall i :: 0 <= i < |rooms| && own[i] ==> after[i] == rooms[i]
    ensures LeastOf(level, after, own + [false])
  {
    var i :| 0 <= i < |rooms| && own[i] && level == rooms[i];
    assert (own + [false])[i] && level == after[i];
  }

  /** A request of the key leaves the bucket at the new least room. */
  lemma LevelOwn(l: Limits, start: Time, trace: seq<Request>, r: Request)
    requires LevelOk(l, start, trace, r.key)
    ensures LevelOk(l, start, trace + [r], r.key)
  {
    var level := Available(l, After(l, start, trace, false), r.key, r.at);
    var taken := One(Decision(l, start, trace + [r], false));
    LevelFound(l, start, trace, r.key, r.at, level);
    BucketAfter(l, start, trace, r);
    RoomsAfter(l, start, trace, r, taken);
    LeastAfter(level, Rooms(l, start, trace, r.at), Own(trace, r.key), l.burst, taken as real,
               Rooms(l, start, trace + [r], r.at));
    assert Own(trace + [r], r.key) == Own(trace, r.key) + [true];
  }

  lemma BucketAfter(l: Limits, start: Time, trace: seq<Request>, r: Request)
    ensures var buckets := After(l, start, trace + [r], false).buckets;
            var level := Available(l, After(l, start, trace, false), r.key, r.at);
            && r.key in buckets
            && buckets[r.key] == Bucket(level - One(Decision(l, start, trace + [r], false)) as real, r.at)
  {
    AfterSnoc(l, start, trace, r, false);
  }

  lemma LevelOther(l: Limits, start: Time, trace: seq<Request>, r: Request, key: string)
    requires LevelOk(l, start, trace, key) && r.key != key
    ensures LevelOk(l, start, trace + [r], key)
  {
    var s := After(l, start, trace, false);
    AfterSnoc(l, start, trace, r, false);
    if key in s.buckets {
      var b := s.buckets[key];
      RoomsOfOther(l, start, trace, r, key, b.last);
      LeastUnmarked(b.tokens, Rooms(l, start, trace, b.last), Own(trace, key), Rooms(l, start, trace + [r], b.last));
      assert Own(trace + [r], key) == Own(trace, key) + [false];
    }
  }

  lemma {:induction false} LevelsAreRooms(l: Limits, start: Time, trace: seq<Request>, key: string)
    ensures LevelOk(l, start, trace, key)
  {
    if trace != [] {
      var n := |trace| - 1;
      LevelsAreRooms(l, start, trace[..n], key);
      assert trace == trace[..n] + [trace[n]];
      if trace[n].key == key {
        LevelOwn(l, start, trace[..n], trace[n]);
      } else {
        LevelOther(l, start, trace[..n], trace[n], key);
      }
    }
  }

  lemma {:induction false} SameAdmitted(l: Limits, start: Time, trace: seq<Request>, key: string, i: nat)
    requires l.Valid() && l.SweepSafe() && Chronological(start, trace)
    ensures AdmittedSince(l, start, trace, key, i, true) == AdmittedSince(l, start, trace, key, i, false)
  {
    if |trace| > i {
      SweepUnobservable(l, start, trace);
      SameAdmitted(l, start, trace[..|trace| - 1], key, i);
    }
  }

  /** Admitting the last request keeps the window from position i within burst + limit * d. */
  predicate KeepsWindow(l: Limits, start: Time, trace: seq<Request>, i: nat, sweeping: bool)
    requires i < |trace|
  {
    var n := |trace| - 1;
    AdmittedSince(l, start, trace[..n], trace[n].key, i, sweeping) as real + 1.0
      <= l.burst + ToSeconds(trace[n].at - trace[i].at) * l.limit
  }

  /**
    The exact admission law: a request is admitted if and only if that keeps every
    window from an earlier request of its key, or from itself, within the bound.
   */
  lemma AdmittedIff(l: Limits, start: Time, trace: seq<Request>, sweeping: bool)
    requires l.Valid() && trace != [] && (sweeping ==> l.SweepSafe() && Chronological(start, trace))
    ensures Decision(l, start, trace, sweeping) <==>
            forall i :: 0 <= i < |trace| && trace[i].key == trace[|trace| - 1].key ==> KeepsWindow(l, start, trace, i, sweeping)
  {
    var n := |trace| - 1;
    var init, r := trace[..n], trace[n];
    assert trace == init + [r];
    RememberedIff(l, start, init, r);
    if sweeping {
      SweepUnobservable(l, start, trace);
      forall i | 0 <= i < |trace| ensures KeepsWindow(l, start, trace, i, true) == KeepsWindow(l, start, trace, i, false) {
        SameAdmitted(l, start, init, r.key, i);
      }
    }
  }

  /** The law for a limiter that never forgets. */
  lemma RememberedIff(l: Limits, start: Time, trace: seq<Request>, r: Request)
    requires l.Valid()
    ensures Decision(l, start, trace + [r], false) <==>
            forall i :: 0 <= i <= |trace| && (trace + [r])[i].key == r.key ==> KeepsWindow(l, start, trace + [r], i, false)
  {
    var level := Available(l, After(l, start, trace, false), r.key, r.at);
    var rooms, own := Rooms(l, start, trace, r.at), Own(trace, r.key);
    LevelsAreRooms(l, start, trace, r.key);
    LevelFound(l, start, trace, r.key, r.at, level);
    AfterSnoc(l, start, trace, r, false);
    AllRoomsSuffice(level, rooms, own, l.burst);
    forall i | 0 <= i <= |trace| && (trace + [r])[i].key == r.key
      ensures KeepsWindow(l, start, trace + [r], i, false) <==> i == |trace| || rooms[i] >= 1.0
    {
      WindowIsRoom(l, start, trace, r, i);
    }
    assert forall i :: 0 <= i < |trace| ==> own[i] == ((trace + [r])[i].key == r.key);
  }

  lemma WindowIsRoom(l: Limits, start: Time, trace: seq<Request>, r: Request, i: nat)
    requires l.Valid() && i <= |trace| && (trace + [r])[i].key == r.key
    ensures KeepsWindow(l, start, trace + [r], i, false) <==> i == |trace| || Room(l, start, trace, i, r.at) >= 1.0
  {
    assert (trace + [r])[..|trace|] == trace;
    assert ToSeconds(r.at - r.at) == 0.0;
  }

  /** There is a token exactly when every window leaves room for one. */
  lemma AllRoomsSuffice(level: real, rooms: seq<real>, own: seq<bool>, burst: real)
    requires |rooms| == |own| && FoundIn(level, rooms, own, burst) && burst >= 1.0
    ensures level >= 1.0 <==> forall i :: 0 <= i < |rooms| && own[i] ==> rooms[i] >= 1.0
  {
  }

  /* ----- When sweeping shows ----- */

  function Repeat(key: string, now: Time, n: nat): seq<Request> {
    seq(n, i => Request(key, now))
  }

  function MaybeSwept(s: State, now: Time, sweeping: bool): State {
    if sweeping then Sweep(s, now) else s
  }

  /** The tokens a request for the key would find. */
  function Available(l: Limits, s: State, key: string, now: Time): real {
    Refilled(l, if key in s.buckets then s.buckets[key] else Bucket(l.burst, now), now)
  }

  lemma AfterSnoc(l: Limits, start: Time, trace: seq<Request>, r: Request, sweeping: bool)
    ensures After(l, start, trace + [r], sweeping) == Allowed(l, After(l, start, trace, sweeping), r.key, r.at, sweeping).1
    ensures Decision(l, start, trace + [r], sweeping) == Allowed(l, After(l, start, trace, sweeping), r.key, r.at, sweeping).0
  {
    assert (trace + [r])[..|trace|] == trace;
  }

  lemma TakeFirst(l: Limits, s: State, key: string, now: Time, sweeping: bool)
    requires l.Valid() && Available(l, MaybeSwept(s, now, sweeping), key, now) >= 1.0
    ensures var swept := MaybeSwept(s, now, sweeping);
            Allowed(l, s, key, now, sweeping) ==
            (true, swept.(buckets := swept.buckets[key := Bucket(Available(l, swept, key, now) - 1.0, now)]))
  {
  }

  lemma TakeAgain(l: Limits, s: State, key: string, now: Time, sweeping: bool)
    requires l.Valid() && key in s.buckets && s.buckets[key].last == now && s.buckets[key].tokens <= l.burst
    requires sweeping ==> now - s.lastSweep < MINUTE
    ensures MaybeSwept(s, now, sweeping) == s
    ensures Available(l, s, key, now) == s.buckets[key].tokens
  {
    assert ToSeconds(now - now) == 0.0;
  }

  /** Just after n simultaneous requests for the key. */
  ghost predicate Drained(l: Limits, before: State, after: State, key: string, now: Time, n: nat) {
    && key in after.buckets
    && after.buckets[key] == Bucket(Available(l, before, key, now) - n as real, now)
    && after.lastSweep == before.lastSweep
  }

  lemma AvailableAtMostBurst(l: Limits, s: State, key: string, now: Time)
    ensures Available(l, s, key, now) <= l.burst
  {
  }

  /** n tokens can be taken from `first` at once, without a further sweep. */
  ghost predicate CanDrain(l: Limits, first: State, key: string, now: Time, n: nat, sweeping: bool) {
    Available(l, first, key, now) >= n as real && (sweeping ==> now - first.lastSweep < MINUTE)
  }

  lemma DrainFirst(l: Limits, s: State, key: string, now: Time, sweeping: bool)
    requires l.Valid() && CanDrain(l, MaybeSwept(s, now, sweeping), key, now, 1, sweeping)
    ensures Drained(l, MaybeSwept(s, now, sweeping), Allowed(l, s, key, now, sweeping).1, key, now, 1)
  {
    TakeFirst(l, s, key, now, sweeping);
  }

  lemma DrainOne(l: Limits, first: State, s: State, key: string, now: Time, n: nat, sweeping: bool)
    requires l.Valid() && Drained(l, first, s, key, now, n) && CanDrain(l, first, key, now, n + 1, sweeping)
    ensures Drained(l, first, Allowed(l, s, key, now, sweeping).1, key, now, n + 1)
  {
    AvailableAtMostBurst(l, first, key, now);
    TakeAgain(l, s, key, now, sweeping);
    TakeFirst(l, s, key, now, sweeping);
  }

  lemma CanDrainFewer(l: Limits, first: State, key: string, now: Time, n: nat, sweeping: bool)
    requires n >= 1 && CanDrain(l, first, key, now, n, sweeping)
    ensures CanDrain(l, first, key, now, n - 1, sweeping)
  {
  }

  /** n simultaneous requests take n of the available tokens. */
  lemma {:induction false} Drain(l: Limits, start: Time, trace: seq<Request>, key: string, now: Time, n: nat, sweeping: bool)
    requires l.Valid() && n >= 1
    requires CanDrain(l, MaybeSwept(After(l, start, trace, sweeping), now, sweeping), key, now, n, sweeping)
    ensures Drained(l, MaybeSwept(After(l, start, trace, sweeping), now, sweeping),
                    After(l, start, trace + Repeat(key, now, n), sweeping), key, now, n)
  {
    var s := After(l, start, trace, sweeping);
    var first := MaybeSwept(s, now, sweeping);
    var before := trace + Repeat(key, now, n - 1);
    assert trace + Repeat(key, now, n) == before + [Request(key, now)];
    AfterSnoc(l, start, before, Request(key, now), sweeping);
    if n > 1 {
      CanDrainFewer(l, first, key, now, n, sweeping);
      Drain(l, start, trace, key, now, n - 1, sweeping);
      DrainOne(l, first, After(l, start, before, sweeping), key, now, n - 1, sweeping);
    } else {
      assert before == trace;
      DrainFirst(l, s, key, now, sweeping);
    }
  }

  /** Two stages: drain `burst` tokens at start, then the refill ten minutes later, then ask once more. */
  function Witness(limit: int, burst: int, start: Time): seq<Request>
    requires limit > 0 && burst > 0
  {
    Repeat("k", start, burst) + Repeat("k", start + IDLE_LIMIT, 600 * limit) + [Request("k", start + IDLE_LIMIT)]
  }

  lemma WitnessDecision(limit: int, burst: int, start: Time, sweeping: bool)
    requires limit > 0 && burst > 600 * limit
    ensures Decision(NewLimits(limit, burst), start, Witness(limit, burst, start), sweeping) == sweeping
  {
    var l := NewLimits(limit, burst);
    var t1 := start + IDLE_LIMIT;
    var first := Repeat("k", start, burst);
    assert [] + first == first;
    FullAtStart(l, start, sweeping);
    Drain(l, start, [], "k", start, burst, sweeping);
    var emptied := After(l, start, first, sweeping);
    TenMinutesLater(l, emptied, start, sweeping);
    var s1 := MaybeSwept(emptied, t1, sweeping);
    Drain(l, start, first, "k", t1, 600 * limit, sweeping);
    var refill := Repeat("k", t1, 600 * limit);
    var used := After(l, start, first + refill, sweeping);
    AfterSnoc(l, start, first + refill, Request("k", t1), sweeping);
    TakeAgain(l, used, "k", t1, sweeping);
  }

  lemma FullAtStart(l: Limits, start: Time, sweeping: bool)
    requires l.Valid()
    ensures var s := MaybeSwept(After(l, start, [], sweeping), start, sweeping);
            s == State(map[], start) && Available(l, s, "k", start) == l.burst
  {
    assert ToSeconds(start - start) == 0.0;
  }

  /** Ten minutes after being emptied, a swept bucket is full and a remembered one is not. */
  lemma TenMinutesLater(l: Limits, s: State, start: Time, sweeping: bool)
    requires l.Valid() && !l.SweepSafe() && s.lastSweep == start
    requires "k" in s.buckets && s.buckets["k"] == Bucket(0.0, start)
    ensures var t1 := start + IDLE_LIMIT;
            var s1 := MaybeSwept(s, t1, sweeping);
            && Available(l, s1, "k", t1) == (if sweeping then l.burst else 600.0 * l.limit)
            && (sweeping ==> s1.lastSweep == t1)
  {
    assert ToSeconds(0) == 0.0;
    assert ToSeconds(IDLE_LIMIT) == 600.0;
  }

  /**
    The condition is exact: with a burst above 600 times the limit, there is a
    run on which the sweeping limiter admits a request the other one refuses.
   */
  lemma SweepVisible(limit: int, burst: int, start: Time)
    requires limit > 0 && burst > 0 && !NewLimits(limit, burst).SweepSafe()
    ensures var trace := Witness(limit, burst, start);
            var l := NewLimits(limit, burst);
            Chronological(start, trace) && Decision(l, start, trace, true) && !Decision(l, start, trace, false)
  {
    WitnessDecision(limit, burst, start, true);
    WitnessDecision(limit, burst, start, false);
  }

  /** Simultaneous requests that find enough tokens are all admitted. */
  lemma {:induction false} DrainAdmits(l: Limits, start: Time, trace: seq<Request>, key: string, now: Time, n: nat,
                                       from: Time, to: Time)
    requires l.Valid() && from <= now <= to
    requires CanDrain(l, MaybeSwept(After(l, start, trace, true), now, true), key, now, n, true)
    ensures AdmittedInWindow(l, start, trace + Repeat(key, now, n), key, from, to)
            == AdmittedInWindow(l, start, trace, key, from, to) + n
  {
    if n == 0 {
      assert trace + Repeat(key, now, 0) == trace;
    } else {
      var first := MaybeSwept(After(l, start, trace, true), now, true);
      var before := trace + Repeat(key, now, n - 1);
      CanDrainFewer(l, first, key, now, n, true);
      DrainAdmits(l, start, trace, key, now, n - 1, from, to);
      NextAdmitted(l, start, trace, key, now, n);
      assert trace + Repeat(key, now, n) == before + [Request(key, now)];
      assert (before + [Request(key, now)])[..|before|] == before;
    }
  }

  lemma NextAdmitted(l: Limits, start: Time, trace: seq<Request>, key: string, now: Time, n: nat)
    requires l.Valid() && n >= 1
    requires CanDrain(l, MaybeSwept(After(l, start, trace, true), now, true), key, now, n, true)
    ensures Decision(l, start, trace + Repeat(key, now, n - 1) + [Request(key, now)], true)
  {
    var first := MaybeSwept(After(l, start, trace, true), now, true);
    var before := trace + Repeat(key, now, n - 1);
    AfterSnoc(l, start, before, Request(key, now), true);
    if n == 1 {
      assert before == trace;
      TakeFirst(l, After(l, start, trace, true), key, now, true);
    } else {
      CanDrainFewer(l, first, key, now, n, true);
      Drain(l, start, trace, key, now, n - 1, true);
      DrainedOnce(l, first, After(l, start, before, true), key, now, n - 1);
    }
  }

  /** After fewer requests than there were tokens, the next one is admitted. */
  lemma DrainedOnce(l: Limits, first: State, s: State, key: string, now: Time, n: nat)
    requires l.Valid() && Drained(l, first, s, key, now, n) && CanDrain(l, first, key, now, n + 1, true)
    ensures Allowed(l, s, key, now, true).0
  {
    AvailableAtMostBurst(l, first, key, now);
    TakeAgain(l, s, key, now, true);
    TakeFirst(l, s, key, now, true);
  }

  /** With a burst above 600 times the limit, ten minutes can admit one request more than the bound. */
  lemma WitnessExceeds(limit: int, burst: int, start: Time)
    requires limit > 0 && burst > 600 * limit
    ensures AdmittedInWindow(NewLimits(limit, burst), start, Witness(limit, burst, start), "k", start, start + IDLE_LIMIT)
            == burst + 600 * limit + 1
  {
    var l := NewLimits(limit, burst);
    var t1 := start + IDLE_LIMIT;
    var first := Repeat("k", start, burst);
    assert [] + first == first;
    FullAtStart(l, start, true);
    Drain(l, start, [], "k", start, burst, true);
    DrainAdmits(l, start, [], "k", start, burst, start, t1);
    TenMinutesLater(l, After(l, start, first, true), start, true);
    DrainAdmits(l, start, first, "k", t1, 600 * limit, start, t1);
    WitnessDecision(limit, burst, start, true);
    var before := first + Repeat("k", t1, 600 * limit);
    assert Witness(limit, burst, start) == before + [Request("k", t1)];
    assert (before + [Request("k", t1)])[..|before|] == before;
  }

  /** On every run, every key and every window stay within burst + limit * d. */
  ghost predicate AdmissionBounded(l: Limits, start: Time) {
    forall trace, key, from, to :: Chronological(start, trace) && from <= to ==>
      AdmittedInWindow(l, start, trace, key, from, to) as real <= l.burst + ToSeconds(to - from) * l.limit
  }

  /** The bound holds exactly for bursts of at most 600 times the limit. */
  lemma AdmissionBoundIff(limit: int, burst: int, start: Time)
    requires limit > 0 && burst > 0
    ensures AdmissionBounded(NewLimits(limit, burst), start) <==> burst <= 600 * limit
  {
    var l := NewLimits(limit, burst);
    if burst <= 600 * limit {
      forall trace, key, from, to | Chronological(start, trace) && from <= to
        ensures AdmittedInWindow(l, start, trace, key, from, to) as real <= l.burst + ToSeconds(to - from) * l.limit
      {
        AdmissionBound(l, start, trace, key, from, to);
      }
    } else {
      OverAdmitted(limit, burst, start);
    }
  }

  lemma OverAdmitted(limit: int, burst: int, start: Time)
    requires limit > 0 && burst > 600 * limit
    ensures !AdmissionBounded(NewLimits(limit, burst), start)
  {
    var l := NewLimits(limit, burst);
    var trace, t1 := Witness(limit, burst, start), start + IDLE_LIMIT;
    WitnessExceeds(limit, burst, start);
    SweepVisible(limit, burst, start);
    TenMinutesInflow(l, start);
    assert !(AdmittedInWindow(l, start, trace, "k", start, t1) as real <= l.burst + ToSeconds(t1 - start) * l.limit);
  }

  lemma TenMinutesInflow(l: Limits, start: Time)
    ensures ToSeconds(start + IDLE_LIMIT - start) * l.limit == 600.0 * l.limit
  {
    assert ToSeconds(start + IDLE_LIMIT - start) == 600.0;
  }
}
