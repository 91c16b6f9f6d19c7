/** The attack status kept by the sample handler and the events it publishes on transitions. */
module AttackEvents {
  import opened RunLength

  datatype Status = Starting | Quiet | UnderAttack

  datatype Event = SampleCollected(packets: int, signals: nat) | AttackDetected(signals: nat) | AttackCleared

  function StatusOf(signals: nat): Status {
    if signals > 0 then UnderAttack else Quiet
  }

  class Handler {
    var status: Status

    constructor ()
      ensures status == Starting
    {
      status := Starting;
    }

    method HandleSample(packets: int, signals: nat) returns (events: seq<Event>)
      modifies this
      ensures status == if signals > 0 then UnderAttack else Quiet
      ensures events == Published(old(status), packets, signals)
    {
      var previous := status;
      status := StatusOf(signals);
      events := [SampleCollected(packets, signals)];
      if previous != UnderAttack && status == UnderAttack {
        events := events + [AttackDetected(signals)];
      }
      if previous == UnderAttack && status == Quiet {
        events := events + [AttackCleared];
      }
    }
  }

  predicate Detects(previous: Status, signals: nat) {
    previous != UnderAttack && signals > 0
  }

  predicate Clears(previous: Status, signals: nat) {
    previous == UnderAttack && signals == 0
  }

  function Published(previous: Status, packets: int, signals: nat): seq<Event> {
    [SampleCollected(packets, signals)]
    + (if Detects(previous, signals) then [AttackDetected(signals)] else [])
    + (if Clears(previous, signals) then [AttackCleared] else [])
  }

  /** The status after the samples, given by their numbers of signals. */
  function StatusAfter(samples: seq<nat>): Status {
    if samples == [] then Starting else StatusOf(samples[|samples| - 1])
  }

  /** The indices of the samples that published AttackDetected, and of those that published AttackCleared. */
  function Detections(samples: seq<nat>): seq<nat> {
    if samples == [] then []
    else
      var n := |samples| - 1;
      Detections(samples[..n])
      + if Detects(StatusAfter(samples[..n]), samples[n]) then [n] else []
  }

  function Clearances(samples: seq<nat>): seq<nat> {
    if samples == [] then []
    else
      var n := |samples| - 1;
      Clearances(samples[..n])
      + if Clears(StatusAfter(samples[..n]), samples[n]) then [n] else []
  }

  function Bits(samples: seq<nat>): seq<bool> {
    seq(|samples|, i requires 0 <= i < |samples| => samples[i] > 0)
  }

  function Starts(runs: seq<(nat, nat)>): seq<nat> {
    seq(|runs|, i requires 0 <= i < |runs| => runs[i].0)
  }

  /** The ends of the runs that ended before sample n. */
  function Ends(runs: seq<(nat, nat)>, n: nat): seq<nat> {
    if runs == [] then []
    else
      var k := |runs| - 1;
      Ends(runs[..k], n) + if runs[k].1 < n then [runs[k].1] else []
  }

  lemma {:induction false} EndsBefore(runs: seq<(nat, nat)>, n: nat)
    requires forall i :: 0 <= i < |runs| ==> runs[i].1 < n
    ensures Ends(runs, n + 1) == Ends(runs, n)
  {
    if runs != [] {
      EndsBefore(runs[..|runs| - 1], n);
    }
  }

  /** Appending a sample without signals ends a run that reached it. */
  lemma QuietSample(runs: seq<(nat, nat)>, n: nat)
    requires RunsUpTo(runs, n)
    ensures Ends(runs, n + 1) == Ends(runs, n) + if runs != [] && runs[|runs| - 1].1 == n then [n] else []
  {
    if runs != [] {
      EarlierRunsEnded(runs, n);
      EndsBefore(runs[..|runs| - 1], n);
    }
  }

  /** Appending a sample with signals extends a run that reached it, */
  lemma AttackContinues(runs: seq<(nat, nat)>, n: nat)
    requires RunsUpTo(runs, n) && runs != [] && runs[|runs| - 1].1 == n
    ensures var k := |runs| - 1;
            var longer := runs[..k] + [(runs[k].0, n + 1)];
            Starts(longer) == Starts(runs) && Ends(longer, n + 1) == Ends(runs, n)
  {
    var k := |runs| - 1;
    var longer := runs[..k] + [(runs[k].0, n + 1)];
    assert longer[..k] == runs[..k];
    EarlierRunsEnded(runs, n);
    EndsBefore(runs[..k], n);
  }

  /** or starts a new one. */
  lemma AttackStarts(runs: seq<(nat, nat)>, n: nat)
    requires RunsUpTo(runs, n) && (runs == [] || runs[|runs| - 1].1 != n)
    ensures var longer := runs + [(n, n + 1)];
            Starts(longer) == Starts(runs) + [n] && Ends(longer, n + 1) == Ends(runs, n)
  {
    var longer := runs + [(n, n + 1)];
    assert longer[..|runs|] == runs;
    if runs != [] {
      EarlierRunsEnded(runs, n);
    }
    EndsBefore(runs, n);
  }

  /** What the events of the samples say about these runs. */
  ghost predicate Match(samples: seq<nat>, runs: seq<(nat, nat)>) {
    && Detections(samples) == Starts(runs)
    && Clearances(samples) == Ends(runs, |samples|)
    && (StatusAfter(samples) == UnderAttack <==> runs != [] && runs[|runs| - 1].1 == |samples|)
  }

  lemma MatchStep(samples: seq<nat>, signals: nat, runs: seq<(nat, nat)>)
    requires RunsUpTo(runs, |samples|) && Match(samples, runs)
    ensures Match(samples + [signals], Longer(runs, |samples|, signals > 0))
  {
    var n := |samples|;
    assert (samples + [signals])[..n] == samples;
    if signals == 0 {
      QuietSample(runs, n);
    } else if runs != [] && runs[|runs| - 1].1 == n {
      AttackContinues(runs, n);
    } else {
      AttackStarts(runs, n);
    }
  }

  lemma RunsStep(samples: seq<nat>, signals: nat)
    ensures Runs(Bits(samples + [signals])) == Longer(Runs(Bits(samples)), |samples|, signals > 0)
    ensures RunsUpTo(Runs(Bits(samples)), |samples|)
  {
    var bits := Bits(samples + [signals]);
    assert bits[..|samples|] == Bits(samples);
    RunsShape(Bits(samples));
  }

  /**
    Detections and clearances are the starts and the ends of the maximal runs of
    samples with signals, in order: one detection per attack, one clearance per
    attack that is over, and an open attack exactly while the status says so.
   */
  lemma {:induction false} EventsAreRuns(samples: seq<nat>)
    ensures Match(samples, Runs(Bits(samples)))
  {
    if samples != [] {
      var n := |samples| - 1;
      var init, last := samples[..n], samples[n];
      EventsAreRuns(init);
      assert samples == init + [last];
      RunsStep(init, last);
      MatchStep(init, last, Runs(Bits(init)));
    }
  }

  /* ----- The events themselves ----- */

  datatype Sample = Sample(packets: int, signals: nat)

  function Counts(samples: seq<Sample>): seq<nat> {
    seq(|samples|, i requires 0 <= i < |samples| => samples[i].signals)
  }

  /** What handling the samples one after the other publishes, sample by sample. */
  function AllPublished(samples: seq<Sample>): seq<seq<Event>> {
    if samples == [] then []
    else
      var n := |samples| - 1;
      AllPublished(samples[..n])
      + [Published(StatusAfter(Counts(samples[..n])), samples[n].packets, samples[n].signals)]
  }

  /** A true bit after a false one, or at the start, begins a maximal run. */
  lemma {:induction false} RunStartingAt(bits: seq<bool>, i: nat, j: nat) returns (end: nat)
    requires i < j <= |bits| && (forall x :: i <= x < j ==> bits[x]) && (i == 0 || !bits[i - 1])
    ensures MaximalRun(bits, i, end)
    decreases |bits| - j
  {
    if j == |bits| || !bits[j] {
      end := j;
    } else {
      end := RunStartingAt(bits, i, j + 1);
    }
  }

  /** A true bit before a false one ends a maximal run. */
  lemma {:induction false} RunEndingBefore(bits: seq<bool>, i: nat, j: nat) returns (start: nat)
    requires i < j < |bits| && (forall x :: i <= x < j ==> bits[x]) && !bits[j]
    ensures MaximalRun(bits, start, j)
    decreases i
  {
    if i == 0 || !bits[i - 1] {
      start := i;
    } else {
      start := RunEndingBefore(bits, i - 1, j);
    }
  }

  lemma DetectsAtStart(counts: seq<nat>, n: nat)
    requires n < |counts|
    ensures Detects(StatusAfter(counts[..n]), counts[n]) <==> exists j: nat :: MaximalRun(Bits(counts), n, j)
  {
    var bits := Bits(counts);
    if Detects(StatusAfter(counts[..n]), counts[n]) {
      var j := RunStartingAt(bits, n, n + 1);
    }
    if j: nat :| MaximalRun(bits, n, j) {
      assert bits[n];
    }
  }

  lemma ClearsAtEnd(counts: seq<nat>, n: nat)
    requires n < |counts|
    ensures Clears(StatusAfter(counts[..n]), counts[n]) <==> exists i: nat :: MaximalRun(Bits(counts), i, n)
  {
    var bits := Bits(counts);
    if Clears(StatusAfter(counts[..n]), counts[n]) {
      assert n > 0 && bits[n - 1];
      var i := RunEndingBefore(bits, n - 1, n);
    }
    if i: nat :| MaximalRun(bits, i, n) {
      assert bits[n - 1];
    }
  }

  /** The events of sample n: its own, a detection if an attack starts there, a clearance if one has just ended. */
  ghost function EventsOfSample(samples: seq<Sample>, n: nat): seq<Event>
    requires n < |samples|
  {
    var attack := seq(|samples|, i requires 0 <= i < |samples| => samples[i].signals > 0);
    [SampleCollected(samples[n].packets, samples[n].signals)]
    + (if exists j: nat :: MaximalRun(attack, n, j) then [AttackDetected(samples[n].signals)] else [])
    + (if exists i: nat :: MaximalRun(attack, i, n) then [AttackCleared] else [])
  }

  lemma PublishedAt(samples: seq<Sample>, n: nat)
    requires n < |samples|
    ensures Published(StatusAfter(Counts(samples)[..n]), samples[n].packets, samples[n].signals) == EventsOfSample(samples, n)
  {
    var attack := seq(|samples|, i requires 0 <= i < |samples| => samples[i].signals > 0);
    assert attack == Bits(Counts(samples));
    DetectsAtStart(Counts(samples), n);
    ClearsAtEnd(Counts(samples), n);
  }

  lemma {:induction false} PublishedPrefix(samples: seq<Sample>, n: nat)
    requires n < |samples|
    ensures |AllPublished(samples)| == |samples|
    ensures AllPublished(samples)[n] ==
            Published(StatusAfter(Counts(samples)[..n]), samples[n].packets, samples[n].signals)
  {
    var m := |samples| - 1;
    assert Counts(samples)[..m] == Counts(samples[..m]);
    if m > 0 {
      PublishedPrefix(samples[..m], if n < m then n else 0);
    }
    if n < m {
      assert Counts(samples[..m])[..n] == Counts(samples)[..n];
    }
  }

  /**
    On every run of samples, each publishes its own event; an attack is detected
    exactly at the samples that start a maximal run of samples with signals, and
    cleared exactly at those that follow one; and nothing else is published.
   */
  lemma EventsArePlaced(samples: seq<Sample>, n: nat)
    requires n < |samples|
    ensures |AllPublished(samples)| == |samples| && AllPublished(samples)[n] == EventsOfSample(samples, n)
  {
    PublishedPrefix(samples, n);
    PublishedAt(samples, n);
  }
}
