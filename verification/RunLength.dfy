/** Maximal runs of true in a sequence of booleans. */
module RunLength {

  /** Bits i..j are all true, and the run can be extended neither way. */
  ghost predicate MaximalRun(bits: seq<bool>, i: nat, j: nat) {
    && i < j <= |bits|
    && (forall x :: i <= x < j ==> bits[x])
    && (i == 0 || !bits[i - 1])
    && (j == |bits| || !bits[j])
  }

  ghost predicate Separated(runs: seq<(nat, nat)>) {
    forall a, b :: 0 <= a < b < |runs| ==> runs[a].1 < runs[b].0
  }

  /** The runs of n bits, after one more bit. */
  function Longer(runs: seq<(nat, nat)>, n: nat, bit: bool): seq<(nat, nat)> {
    if !bit then runs
    else if runs != [] && runs[|runs| - 1].1 == n then runs[..|runs| - 1] + [(runs[|runs| - 1].0, n + 1)]
    else runs + [(n, n + 1)]
  }

  /** The maximal runs in order, built by appending one bit at a time. */
  function Runs(bits: seq<bool>): seq<(nat, nat)> {
    if bits == [] then [] else Longer(Runs(bits[..|bits| - 1]), |bits| - 1, bits[|bits| - 1])
  }

  predicate Nonempty(runs: seq<(nat, nat)>) {
    forall i :: 0 <= i < |runs| ==> runs[i].0 < runs[i].1
  }

  /** Runs within the first n bits. */
  ghost predicate RunsUpTo(runs: seq<(nat, nat)>, n: nat) {
    Separated(runs) && Nonempty(runs) && (runs != [] ==> runs[|runs| - 1].1 <= n)
  }

  /** Every run but the last ended before the last one began. */
  lemma EarlierRunsEnded(runs: seq<(nat, nat)>, n: nat)
    requires RunsUpTo(runs, n)
    ensures forall i :: 0 <= i < |runs| ==> runs[i].1 <= n && (i < |runs| - 1 ==> runs[i].1 < runs[|runs| - 1].0)
  {
  }

  lemma RunsSnoc(runs: seq<(nat, nat)>, r: (nat, nat))
    requires RunsUpTo(runs, r.0) && (runs != [] ==> runs[|runs| - 1].1 < r.0) && r.0 < r.1
    ensures RunsUpTo(runs + [r], r.1)
  {
    EarlierRunsEnded(runs, r.0);
  }

  lemma RunsPrefix(runs: seq<(nat, nat)>, n: nat)
    requires RunsUpTo(runs, n) && runs != []
    ensures var k := |runs| - 1;
            RunsUpTo(runs[..k], runs[k].0) && (k > 0 ==> runs[..k][k - 1].1 < runs[k].0)
  {
  }

  lemma LongerShape(runs: seq<(nat, nat)>, n: nat, bit: bool)
    requires RunsUpTo(runs, n)
    ensures RunsUpTo(Longer(runs, n, bit), n + 1)
  {
    var k := |runs| - 1;
    if runs != [] && runs[k].1 == n {
      RunsPrefix(runs, n);
      RunsSnoc(runs[..k], (runs[k].0, n + 1));
    } else {
      RunsSnoc(runs, (n, n + 1));
    }
  }

  lemma {:induction false} RunsShape(bits: seq<bool>)
    ensures RunsUpTo(Runs(bits), |bits|)
  {
    if bits != [] {
      var n := |bits| - 1;
      RunsShape(bits[..n]);
      LongerShape(Runs(bits[..n]), n, bits[n]);
    }
  }

  /** The list of all maximal runs, and of nothing else, in order. */
  ghost predicate Lists(runs: seq<(nat, nat)>, bits: seq<bool>) {
    && RunsUpTo(runs, |bits|)
    && (forall i: nat, j: nat :: (i, j) in runs <==> MaximalRun(bits, i, j))
  }

  /** Runs lists the maximal runs. */
  lemma {:induction false} RunsAreMaximal(bits: seq<bool>)
    ensures Lists(Runs(bits), bits)
  {
    if bits != [] {
      var n := |bits| - 1;
      RunsAreMaximal(bits[..n]);
      AppendStep(bits[..n], Runs(bits[..n]), bits[n]);
      assert bits == bits[..n] + [bits[n]];
    }
  }

  lemma AppendStep(bits: seq<bool>, runs: seq<(nat, nat)>, bit: bool)
    requires Lists(runs, bits)
    ensures Lists(Longer(runs, |bits|, bit), bits + [bit])
  {
    LongerShape(runs, |bits|, bit);
    forall i: nat, j: nat ensures (i, j) in Longer(runs, |bits|, bit) <==> MaximalRun(bits + [bit], i, j) {
      if !bit {
        FalseStep(bits, i, j);
      } else if runs != [] && runs[|runs| - 1].1 == |bits| {
        ExtendStep(bits, runs, i, j);
      } else {
        StartStep(bits, runs, i, j);
      }
    }
  }

  lemma FalseStep(bits: seq<bool>, i: nat, j: nat)
    ensures MaximalRun(bits + [false], i, j) <==> MaximalRun(bits, i, j)
  {
    var longer := bits + [false];
    assert forall x :: 0 <= x < |bits| ==> longer[x] == bits[x];
    assert !longer[|bits|];
  }

  /** Appending true keeps the runs that ended earlier and lengthens the one that ended here. */
  lemma TrueStep(bits: seq<bool>, i: nat, j: nat)
    ensures j < |bits| ==> (MaximalRun(bits + [true], i, j) <==> MaximalRun(bits, i, j))
    ensures !MaximalRun(bits + [true], i, |bits|)
    ensures i < |bits| ==> (MaximalRun(bits + [true], i, |bits| + 1) <==> MaximalRun(bits, i, |bits|))
    ensures MaximalRun(bits + [true], |bits|, |bits| + 1) <==> bits == [] || !bits[|bits| - 1]
  {
    var longer := bits + [true];
    assert forall x :: 0 <= x < |bits| ==> longer[x] == bits[x];
    assert longer[|bits|];
    if i < |bits| && MaximalRun(longer, i, |bits| + 1) {
      assert forall x :: i <= x < |bits| ==> bits[x] == longer[x];
    }
  }

  /** At most one listed run ends at the end of the bits: the last. */
  lemma OnlyLastReachesEnd(runs: seq<(nat, nat)>, n: nat, a: nat)
    requires RunsUpTo(runs, n)
    ensures (a, n) in runs <==> runs != [] && runs[|runs| - 1] == (a, n)
  {
    EarlierRunsEnded(runs, n);
    if (a, n) in runs {
      var x :| 0 <= x < |runs| && runs[x] == (a, n);
      assert x == |runs| - 1;
    }
  }

  lemma ExtendStep(bits: seq<bool>, runs: seq<(nat, nat)>, i: nat, j: nat)
    requires Lists(runs, bits) && runs != [] && runs[|runs| - 1].1 == |bits|
    ensures (i, j) in runs[..|runs| - 1] + [(runs[|runs| - 1].0, |bits| + 1)] <==> MaximalRun(bits + [true], i, j)
  {
    var n, k := |bits|, |runs| - 1;
    TrueStep(bits, i, j);
    OnlyLastReachesEnd(runs, n, i);
    EarlierRunsEnded(runs, n);
    assert (i, j) in runs <==> (i, j) in runs[..k] || (i, j) == runs[k];
    if (i, j) in runs[..k] {
      var x :| 0 <= x < k && runs[x] == (i, j);
      assert j < n;
    }
    OnlyLastReachesEnd(runs, n, runs[k].0);
    assert MaximalRun(bits, runs[k].0, n) && bits[n - 1];
  }

  lemma StartStep(bits: seq<bool>, runs: seq<(nat, nat)>, i: nat, j: nat)
    requires Lists(runs, bits) && (runs == [] || runs[|runs| - 1].1 != |bits|)
    ensures (i, j) in runs + [(|bits|, |bits| + 1)] <==> MaximalRun(bits + [true], i, j)
  {
    TrueStep(bits, i, j);
    forall a: nat ensures !MaximalRun(bits, a, |bits|) {
      OnlyLastReachesEnd(runs, |bits|, a);
    }
    EarlierRunsEnded(runs, |bits|);
    if bits != [] && bits[|bits| - 1] {
      var a := RunEndingAt(bits, |bits| - 1);
    }
  }

  /** A true last bit belongs to a run that ends there. */
  lemma {:induction false} RunEndingAt(bits: seq<bool>, i: nat) returns (a: nat)
    requires i < |bits| && forall x :: i <= x < |bits| ==> bits[x]
    ensures MaximalRun(bits, a, |bits|)
  {
    if i == 0 || !bits[i - 1] {
      a := i;
    } else {
      a := RunEndingAt(bits, i - 1);
    }
  }
}
