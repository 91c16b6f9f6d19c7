/** The store of metrics and attack lifecycles, and its reading as run-length encoding. */
module History {
  import opened Wrappers
  import opened Clock
  import opened Orders
  import opened RunLength

  datatype Metric = Metric(
    timestamp: Time, packetsPerSecond: int, connectionsPerSecond: int,
    bytesPerSecond: int, blocked: int, signals: int)

  /** The identifier printed from the start time and the type. */
  datatype AttackId = NoId | AttackId(at: Time, kind: string)

  datatype Attack = Attack(
    id: AttackId, kind: string, severity: string,
    startedAt: Time, resolvedAt: Option<Time>, mitigation: string)

  const METRIC_LIMIT: nat := 43200

  const VERSION: int := 1

  /** What decoding the history file finds. */
  datatype HistoryFile = Undecodable | Data(version: int, metrics: seq<Metric>, attacks: seq<Attack>)

  function KeyOf(kind: string, severity: string): string {
    kind + ['\0'] + severity
  }

  function Key(a: Attack): string {
    KeyOf(a.kind, a.severity)
  }

  predicate IsActive(a: Attack, key: string) {
    a.resolvedAt.None? && Key(a) == key
  }

  /* ----- One record, specified ----- */

  function Started(a: Attack, now: Time): Attack {
    a.(id := AttackId(now, a.kind), startedAt := now, mitigation := "detection only")
  }

  function OpenOne(attacks: seq<Attack>, signal: Attack, now: Time): seq<Attack> {
    if exists a :: a in attacks && IsActive(a, Key(signal)) then attacks else attacks + [Started(signal, now)]
  }

  function Opened(attacks: seq<Attack>, signals: seq<Attack>, now: Time): seq<Attack> {
    if signals == [] then attacks
    else
      var n := |signals| - 1;
      OpenOne(Opened(attacks, signals[..n], now), signals[n], now)
  }

  function Keys(signals: seq<Attack>): set<string> {
    set a | a in signals :: Key(a)
  }

  function Resolve(a: Attack, active: set<string>, now: Time): Attack {
    if a.resolvedAt.None? && Key(a) !in active then a.(resolvedAt := Some(now)) else a
  }

  function Resolved(attacks: seq<Attack>, active: set<string>, now: Time): seq<Attack> {
    seq(|attacks|, i requires 0 <= i < |attacks| => Resolve(attacks[i], active, now))
  }

  function Recorded(attacks: seq<Attack>, signals: seq<Attack>, now: Time): seq<Attack> {
    Resolved(Opened(attacks, signals, now), Keys(signals), now)
  }

  function Newest<T>(s: seq<T>, limit: nat): seq<T> {
    if |s| > limit then s[|s| - limit..] else s
  }

  function Since(metrics: seq<Metric>, since: Time): seq<Metric> {
    if metrics == [] then []
    else
      var n := |metrics| - 1;
      Since(metrics[..n], since) + if metrics[n].timestamp < since then [] else [metrics[n]]
  }

  /** Each metric not before the time is kept as often as it occurs, and no other, */
  lemma {:induction false} SinceKeeps(metrics: seq<Metric>, since: Time)
    ensures forall m :: multiset(Since(metrics, since))[m] == if m.timestamp >= since then multiset(metrics)[m] else 0
    ensures forall m :: m in Since(metrics, since) <==> m in metrics && m.timestamp >= since
  {
    if metrics != [] {
      var n := |metrics| - 1;
      SinceKeeps(metrics[..n], since);
      assert metrics == metrics[..n] + [metrics[n]];
    }
  }

  /** in the order of recording. */
  lemma {:induction false} SinceJoins(a: seq<Metric>, b: seq<Metric>, since: Time)
    ensures Since(a + b, since) == Since(a, since) + Since(b, since)
  {
    if b == [] {
      assert a + b == a;
    } else {
      var n := |b| - 1;
      SinceJoins(a, b[..n], since);
      assert (a + b)[..|a| + n] == a + b[..n];
    }
  }

  function LaterStart(x: Attack, y: Attack): bool {
    x.startedAt > y.startedAt
  }

  /** All the attacks, none started later than one before it. */
  ghost predicate NewestFirst(all: seq<Attack>, attacks: seq<Attack>) {
    && |all| == |attacks| && multiset(all) == multiset(attacks)
    && forall i, j :: 0 <= i < j < |all| ==> all[i].startedAt >= all[j].startedAt
  }

  class Store {
    var metrics: seq<Metric>
    var attacks: seq<Attack>
    var file: Option<HistoryFile>

    constructor (file: Option<HistoryFile>, metrics: seq<Metric>, attacks: seq<Attack>)
      ensures this.file == file && this.metrics == metrics && this.attacks == attacks
    {
      this.file, this.metrics, this.attacks := file, metrics, attacks;
    }

    /** Replace the file by what is in memory: it fails without effect or succeeds. */
    method Save(fails: bool) returns (ok: bool)
      modifies `file
      ensures ok == !fails
      ensures file == if ok then Some(Data(VERSION, metrics, attacks)) else old(file)
    {
      if fails {
        return false;
      }
      file := Some(Data(VERSION, metrics, attacks));
      return true;
    }

    /** `clock` is the time used for a metric without a timestamp. */
    method Record(metric: Metric, signals: seq<Attack>, clock: Time, saveFails: bool) returns (ok: bool)
      modifies this
      ensures var stamped := if metric.timestamp == 0 then metric.(timestamp := clock) else metric;
              && metrics == Newest(old(metrics) + [stamped], METRIC_LIMIT)
              && attacks == Recorded(old(attacks), signals, stamped.timestamp)
      ensures ok == !saveFails
      ensures file == if ok then Some(Data(VERSION, metrics, attacks)) else old(file)
    {
      var stamped := metric;
      if stamped.timestamp == 0 {
        stamped := stamped.(timestamp := clock);
      }
      metrics := metrics + [stamped];
      if |metrics| > METRIC_LIMIT {
        metrics := metrics[|metrics| - METRIC_LIMIT..];
      }
      var active := Open(signals, stamped.timestamp);
      Close(active, stamped.timestamp);
      ok := Save(saveFails);
    }

    /** The first loop: start an attack for every signal without an active one. */
    method Open(signals: seq<Attack>, now: Time) returns (active: set<string>)
      modifies `attacks
      ensures active == Keys(signals)
      ensures attacks == Opened(old(attacks), signals, now)
    {
      active := {};
      for i := 0 to |signals|
        invariant active == Keys(signals[..i])
        invariant attacks == Opened(old(attacks), signals[..i], now)
      {
        assert signals[..i + 1][..i] == signals[..i];
        var key := Key(signals[i]);
        active := active + {key};
        var found := FindActive(key);
        if found < 0 {
          attacks := attacks + [Started(signals[i], now)];
        }
      }
      assert signals[..|signals|] == signals;
    }

    /** The second loop: resolve in place every active attack whose key did not show. */
    method Close(active: set<string>, now: Time)
      modifies `attacks
      ensures attacks == Resolved(old(attacks), active, now)
    {
      for i := 0 to |attacks|
        invariant |attacks| == |old(attacks)|
        invariant forall j :: 0 <= j < i ==> attacks[j] == Resolve(old(attacks)[j], active, now)
        invariant forall j :: i <= j < |attacks| ==> attacks[j] == old(attacks)[j]
      {
        if attacks[i].resolvedAt.None? && Key(attacks[i]) !in active {
          attacks := attacks[i := attacks[i].(resolvedAt := Some(now))];
        }
      }
    }

    /** The last active attack with the key, or -1. */
    method FindActive(key: string) returns (index: int)
      ensures -1 <= index < |attacks|
      ensures index < 0 <==> !exists a :: a in attacks && IsActive(a, key)
      ensures 0 <= index ==> IsActive(attacks[index], key)
      ensures forall j :: 0 <= index < j < |attacks| ==> !IsActive(attacks[j], key)
    {
      index := |attacks| - 1;
      while index >= 0
        invariant -1 <= index < |attacks|
        invariant forall j :: index < j < |attacks| ==> !IsActive(attacks[j], key)
      {
        if attacks[index].resolvedAt.None? && Key(attacks[index]) == key {
          assert IsActive(attacks[index], key);
          return;
        }
        index := index - 1;
      }
    }

    method Metrics(since: Time) returns (result: seq<Metric>)
      ensures result == Since(metrics, since)
      ensures forall m :: m in result <==> m in metrics && m.timestamp >= since
    {
      result := [];
      for i := 0 to |metrics|
        invariant result == Since(metrics[..i], since)
      {
        assert metrics[..i + 1][..i] == metrics[..i];
        if metrics[i].timestamp >= since {
          result := result + [metrics[i]];
        }
      }
      assert metrics[..|metrics|] == metrics;
      SinceKeeps(metrics, since);
    }

    /** One page of the attacks, newest start first; None is the panic of a slice out of bounds. */
    method Attacks(offset: Int64, limit: Int64) returns (page: Option<seq<Attack>>, total: nat)
      ensures total == |attacks|
      ensures page.None? <==> offset < 0 || limit < 0 || limit + Smaller(offset, total) >= TWO_63
      ensures page.Some? ==> exists all: seq<Attack> ::
                && NewestFirst(all, attacks)
                && page.value == all[Smaller(offset, total)..Smaller(Smaller(offset, total) + limit, total)]
    {
      var copyOf := SortSlice(attacks, LaterStart);
      assert |multiset(copyOf)| == |copyOf| && |multiset(attacks)| == |attacks|;
      total := |copyOf|;
      var from: int := offset;
      if from > total {
        from := total;
      }
      var end := WrapInt64(from + limit);
      if end > total {
        end := total;
      }
      if !(0 <= from <= end) {
        return None, total;
      }
      assert NewestFirst(copyOf, attacks);
      page := Some(copyOf[from..end]);
    }
  }

  function Smaller(a: int, b: int): (r: int)
    ensures r <= a && r <= b && (r == a || r == b)
  {
    if a > b then b else a
  }

  /** Opens the history file, or creates an empty one; null stands for an error. */
  method New(file: Option<HistoryFile>, saveFails: bool) returns (s: Store?)
    ensures file.None? ==> (s != null <==> !saveFails)
    ensures file.Some? ==> (s != null <==> file.value.Data? && file.value.version == VERSION)
    ensures s != null ==> fresh(s) && s.file == Some(Data(VERSION, s.metrics, s.attacks))
    ensures s != null ==> s.file == if file.Some? then file else Some(Data(VERSION, [], []))
  {
    if file.None? {
      s := new Store(file, [], []);
      var ok := s.Save(saveFails);
      return if ok then s else null;
    }
    match file.value {
      case Undecodable => return null;
      case Data(version, metrics, attacks) =>
        if version != VERSION {
          return null;
        }
        s := new Store(file, metrics, attacks);
    }
  }

  /* ----- Runs of records ----- */

  /** A signal as the daemon passes it: type and severity only. */
  datatype Signal = Signal(kind: string, severity: string)

  /** One `Record` call: its timestamp and its signals. */
  datatype Sample = Sample(at: Time, signals: seq<Signal>)

  function Pass(signals: seq<Signal>): seq<Attack> {
    seq(|signals|, i requires 0 <= i < |signals| =>
      Attack(NoId, signals[i].kind, signals[i].severity, 0, None, ""))
  }

  /** The attacks after recording the samples into an empty store. */
  function AttacksAfter(samples: seq<Sample>): seq<Attack> {
    if samples == [] then []
    else
      var n := |samples| - 1;
      Recorded(AttacksAfter(samples[..n]), Pass(samples[n].signals), samples[n].at)
  }

  /** Which samples carry the key. */
  function Presence(samples: seq<Sample>, key: string): seq<bool> {
    seq(|samples|, i requires 0 <= i < |samples| => key in Keys(Pass(samples[i].signals)))
  }

  datatype Span = Span(startedAt: Time, resolvedAt: Option<Time>)

  function Times(samples: seq<Sample>): seq<Time> {
    seq(|samples|, i requires 0 <= i < |samples| => samples[i].at)
  }

  /** When the run [i, j) starts, and when the first sample after it resolves it. */
  function SpanOf(times: seq<Time>, run: (nat, nat)): Span
    requires run.0 < |times|
  {
    Span(times[run.0], if run.1 < |times| then Some(times[run.1]) else None)
  }

  function SpansOf(times: seq<Time>, runs: seq<(nat, nat)>): seq<Span>
    requires forall i :: 0 <= i < |runs| ==> runs[i].0 < runs[i].1 <= |times|
  {
    seq(|runs|, i requires 0 <= i < |runs| => SpanOf(times, runs[i]))
  }

  /** The spans of the maximal runs of samples whose bit is set. */
  function SpansOfBits(times: seq<Time>, bits: seq<bool>): seq<Span>
    requires |times| == |bits|
  {
    RunsShape(bits);
    EarlierRunsEnded(Runs(bits), |bits|);
    SpansOf(times, Runs(bits))
  }

  /** The spans of the maximal runs of records that carry the key. */
  function EncodedRuns(samples: seq<Sample>, key: string): seq<Span> {
    SpansOfBits(Times(samples), Presence(samples, key))
  }

  /** The lifecycle records with a key, in order. */
  function WithKey(attacks: seq<Attack>, key: string): seq<Span> {
    if attacks == [] then []
    else
      var n := |attacks| - 1;
      WithKey(attacks[..n], key)
      + if Key(attacks[n]) == key then [Span(attacks[n].startedAt, attacks[n].resolvedAt)] else []
  }

  /* ----- One record seen through one key ----- */

  predicate HasOpen(spans: seq<Span>) {
    exists x :: x in spans && x.resolvedAt.None?
  }

  function CloseAll(spans: seq<Span>, now: Time): seq<Span> {
    seq(|spans|, i requires 0 <= i < |spans| =>
      if spans[i].resolvedAt.None? then spans[i].(resolvedAt := Some(now)) else spans[i])
  }

  /** What one record does to the lifecycles of a key that it does or does not carry. */
  function Step(spans: seq<Span>, present: bool, now: Time): seq<Span> {
    if !present then CloseAll(spans, now)
    else if HasOpen(spans) then spans
    else spans + [Span(now, None)]
  }

  lemma {:induction false} OpenMeansActive(attacks: seq<Attack>, key: string)
    ensures HasOpen(WithKey(attacks, key)) <==> exists a :: a in attacks && IsActive(a, key)
  {
    if attacks != [] {
      var n := |attacks| - 1;
      OpenMeansActive(attacks[..n], key);
      var before, after := WithKey(attacks[..n], key), WithKey(attacks, key);
      var last := Span(attacks[n].startedAt, attacks[n].resolvedAt);
      assert forall a :: a in attacks <==> a in attacks[..n] || a == attacks[n];
      assert forall x :: x in after <==> x in before || (Key(attacks[n]) == key && x == last);
      assert HasOpen(after) <==> HasOpen(before) || IsActive(attacks[n], key);
      assert (exists a :: a in attacks && IsActive(a, key)) <==>
             (exists a :: a in attacks[..n] && IsActive(a, key)) || IsActive(attacks[n], key);
    }
  }

  lemma WithKeySnoc(attacks: seq<Attack>, a: Attack, key: string)
    ensures WithKey(attacks + [a], key) ==
            WithKey(attacks, key) + if Key(a) == key then [Span(a.startedAt, a.resolvedAt)] else []
  {
    assert (attacks + [a])[..|attacks|] == attacks;
  }

  /** One signal, seen through a key. */
  lemma OpenedOne(before: seq<Attack>, signal: Attack, now: Time, key: string)
    requires signal.resolvedAt.None?
    ensures WithKey(OpenOne(before, signal, now), key) ==
            if key == Key(signal) then Step(WithKey(before, key), true, now) else WithKey(before, key)
  {
    WithKeySnoc(before, Started(signal, now), key);
    OpenMeansActive(before, Key(signal));
    assert WithKey(before, key) + [] == WithKey(before, key);
  }

  lemma KeysSnoc(signals: seq<Attack>, key: string)
    requires signals != []
    ensures key in Keys(signals) <==> key in Keys(signals[..|signals| - 1]) || key == Key(signals[|signals| - 1])
  {
    assert signals == signals[..|signals| - 1] + [signals[|signals| - 1]];
  }

  lemma {:induction false} OpenedWithKey(attacks: seq<Attack>, signals: seq<Attack>, now: Time, key: string)
    requires forall a :: a in signals ==> a.resolvedAt.None?
    ensures WithKey(Opened(attacks, signals, now), key) ==
            if key in Keys(signals) then Step(WithKey(attacks, key), true, now) else WithKey(attacks, key)
  {
    if signals != [] {
      var n := |signals| - 1;
      var init, last := signals[..n], signals[n];
      OpenedWithKey(attacks, init, now, key);
      KeysSnoc(signals, key);
      OpenedOne(Opened(attacks, init, now), last, now, key);
      if key in Keys(init) {
        StepTwice(WithKey(attacks, key), now);
      }
    }
  }

  lemma StepTwice(spans: seq<Span>, now: Time)
    ensures Step(Step(spans, true, now), true, now) == Step(spans, true, now)
  {
    assert Span(now, None) in spans + [Span(now, None)];
  }

  lemma {:induction false} ResolvedWithKey(attacks: seq<Attack>, active: set<string>, now: Time, key: string)
    ensures WithKey(Resolved(attacks, active, now), key) ==
            if key in active then WithKey(attacks, key) else CloseAll(WithKey(attacks, key), now)
  {
    if attacks != [] {
      var n := |attacks| - 1;
      ResolvedWithKey(attacks[..n], active, now, key);
      assert Resolved(attacks, active, now) ==
             Resolved(attacks[..n], active, now) + [Resolve(attacks[n], active, now)];
      WithKeySnoc(Resolved(attacks[..n], active, now), Resolve(attacks[n], active, now), key);
    }
  }

  lemma RecordedWithKey(attacks: seq<Attack>, signals: seq<Attack>, now: Time, key: string)
    requires forall a :: a in signals ==> a.resolvedAt.None?
    ensures WithKey(Recorded(attacks, signals, now), key) == Step(WithKey(attacks, key), key in Keys(signals), now)
  {
    OpenedWithKey(attacks, signals, now, key);
    ResolvedWithKey(Opened(attacks, signals, now), Keys(signals), now, key);
  }

  /* ----- The store is the run-length encoding of the samples ----- */

  /** Runs of the first n bits, and which of their spans are open. */
  lemma SpansBefore(times: seq<Time>, runs: seq<(nat, nat)>)
    requires RunsUpTo(runs, |times|)
    ensures forall i :: 0 <= i < |runs| ==> runs[i].0 < runs[i].1 <= |times|
    ensures var spans := SpansOf(times, runs);
            && (HasOpen(spans) <==> runs != [] && runs[|runs| - 1].1 == |times|)
            && forall i :: 0 <= i < |runs| - 1 ==> spans[i].resolvedAt.Some? && runs[i].1 < |times|
  {
    EarlierRunsEnded(runs, |times|);
    var spans := SpansOf(times, runs);
    var k := |runs| - 1;
    if runs != [] {
      assert spans[k] in spans;
    }
  }

  lemma SpansStep(times: seq<Time>, now: Time, runs: seq<(nat, nat)>, bit: bool)
    requires RunsUpTo(runs, |times|)
    ensures forall i :: 0 <= i < |Longer(runs, |times|, bit)| ==>
              Longer(runs, |times|, bit)[i].0 < Longer(runs, |times|, bit)[i].1 <= |times| + 1
    ensures SpansOf(times + [now], Longer(runs, |times|, bit)) == Step(SpansOf(times, runs), bit, now)
  {
    SpansBefore(times, runs);
    LongerShape(runs, |times|, bit);
    EarlierRunsEnded(Longer(runs, |times|, bit), |times| + 1);
    if !bit {
      QuietSpans(times, now, runs);
    } else if runs != [] && runs[|runs| - 1].1 == |times| {
      ContinuedSpans(times, now, runs);
    } else {
      StartedSpans(times, now, runs);
    }
  }

  predicate SpansFit(runs: seq<(nat, nat)>, n: nat) {
    forall i :: 0 <= i < |runs| ==> runs[i].0 < runs[i].1 <= n
  }

  lemma QuietSpans(times: seq<Time>, now: Time, runs: seq<(nat, nat)>)
    requires SpansFit(runs, |times|)
    ensures SpansOf(times + [now], runs) == CloseAll(SpansOf(times, runs), now)
  {
  }

  lemma ContinuedSpans(times: seq<Time>, now: Time, runs: seq<(nat, nat)>)
    requires SpansFit(runs, |times|) && runs != [] && runs[|runs| - 1].1 == |times|
    requires forall i :: 0 <= i < |runs| - 1 ==> runs[i].1 < |times|
    ensures var longer := runs[..|runs| - 1] + [(runs[|runs| - 1].0, |times| + 1)];
            SpansFit(longer, |times| + 1) && SpansOf(times + [now], longer) == SpansOf(times, runs)
  {
  }

  lemma StartedSpans(times: seq<Time>, now: Time, runs: seq<(nat, nat)>)
    requires SpansFit(runs, |times|) && forall i :: 0 <= i < |runs| ==> runs[i].1 < |times|
    ensures var longer := runs + [(|times|, |times| + 1)];
            SpansFit(longer, |times| + 1) && SpansOf(times + [now], longer) == SpansOf(times, runs) + [Span(now, None)]
  {
  }

  lemma EncodedStep(samples: seq<Sample>, key: string)
    requires samples != []
    ensures var n := |samples| - 1;
            EncodedRuns(samples, key) == Step(EncodedRuns(samples[..n], key), Presence(samples, key)[n], samples[n].at)
  {
    var n := |samples| - 1;
    var bits := Presence(samples, key);
    assert Presence(samples[..n], key) == bits[..n];
    assert Times(samples) == Times(samples[..n]) + [samples[n].at];
    var runs := Runs(bits[..n]);
    RunsShape(bits[..n]);
    SpansStep(Times(samples[..n]), samples[n].at, runs, bits[n]);
  }

  /**
    From an empty store, the lifecycles of a key are, one for one and in order,
    the maximal runs of records that carry it: each starts with its run and is
    resolved by the first record after it, or is still open.
   */
  lemma {:induction false} HistoryIsRunLengthEncoding(samples: seq<Sample>, key: string)
    ensures WithKey(AttacksAfter(samples), key) == EncodedRuns(samples, key)
    ensures Lists(Runs(Presence(samples, key)), Presence(samples, key))
  {
    RunsAreMaximal(Presence(samples, key));
    if samples != [] {
      var n := |samples| - 1;
      HistoryIsRunLengthEncoding(samples[..n], key);
      RecordedWithKey(AttacksAfter(samples[..n]), Pass(samples[n].signals), samples[n].at, key);
      EncodedStep(samples, key);
    }
  }

  /* ----- Failed saves and restarts ----- */

  datatype Event = Recording(sample: Sample, saved: bool) | Restart

  /** The attacks in memory and in the file. */
  datatype Stored = Stored(memory: seq<Attack>, file: seq<Attack>)

  /** A failed save leaves the file; a restart resumes with it. */
  function Next(s: Stored, e: Event): Stored {
    match e
    case Recording(sample, saved) =>
      var attacks := Recorded(s.memory, Pass(sample.signals), sample.at);
      Stored(attacks, if saved then attacks else s.file)
    case Restart => Stored(s.file, s.file)
  }

  function StoredAfter(events: seq<Event>): Stored {
    if events == [] then Stored([], [])
    else Next(StoredAfter(events[..|events| - 1]), events[|events| - 1])
  }

  /** The samples that memory and the file remember: a restart forgets those recorded since the last save. */
  datatype Remembered = Remembered(memory: seq<Sample>, file: seq<Sample>)

  function RememberedAfter(events: seq<Event>): Remembered {
    if events == [] then Remembered([], [])
    else
      var r := RememberedAfter(events[..|events| - 1]);
      match events[|events| - 1]
      case Recording(sample, saved) => Remembered(r.memory + [sample], if saved then r.memory + [sample] else r.file)
      case Restart => Remembered(r.file, r.file)
  }

  lemma {:induction false} StoredIsRemembered(events: seq<Event>)
    ensures StoredAfter(events) ==
            Stored(AttacksAfter(RememberedAfter(events).memory), AttacksAfter(RememberedAfter(events).file))
  {
    if events != [] {
      var n := |events| - 1;
      StoredIsRemembered(events[..n]);
      var r := RememberedAfter(events[..n]);
      match events[n] {
        case Recording(sample, _) => assert (r.memory + [sample])[..|r.memory|] == r.memory;
        case Restart =>
      }
    }
  }

  /**
    Over every run of records, failed saves and restarts: the lifecycles of a key,
    in memory and in the file, are the run-length encoding of the samples that
    survived the restarts followed by those recorded since.
   */
  lemma RestartsResume(events: seq<Event>, key: string)
    ensures WithKey(StoredAfter(events).memory, key) == EncodedRuns(RememberedAfter(events).memory, key)
    ensures WithKey(StoredAfter(events).file, key) == EncodedRuns(RememberedAfter(events).file, key)
  {
    StoredIsRemembered(events);
    HistoryIsRunLengthEncoding(RememberedAfter(events).memory, key);
    HistoryIsRunLengthEncoding(RememberedAfter(events).file, key);
  }

  /* ----- Keys and pairs ----- */

  /** Which samples carry the pair of type and severity. */
  function Carries(samples: seq<Sample>, p: Signal): seq<bool> {
    seq(|samples|, i requires 0 <= i < |samples| => p in samples[i].signals)
  }

  /** The spans of the maximal runs of records that carry the pair. */
  function PairRuns(samples: seq<Sample>, p: Signal): seq<Span> {
    SpansOfBits(Times(samples), Carries(samples, p))
  }

  predicate OfPair(a: Attack, p: Signal) {
    a.kind == p.kind && a.severity == p.severity
  }

  /** The lifecycle records of a pair, in order. */
  function WithPair(attacks: seq<Attack>, p: Signal): seq<Span> {
    if attacks == [] then []
    else
      var n := |attacks| - 1;
      WithPair(attacks[..n], p)
      + if OfPair(attacks[n], p) then [Span(attacks[n].startedAt, attacks[n].resolvedAt)] else []
  }

  /** Both pairs are written as the same key. */
  predicate SameKey(p: Signal, q: Signal) {
    KeyOf(p.kind, p.severity) == KeyOf(q.kind, q.severity)
  }

  /** No other pair in the samples is written as p's key. */
  ghost predicate Unmistakable(samples: seq<Sample>, p: Signal) {
    forall i, q :: 0 <= i < |samples| && q in samples[i].signals && SameKey(q, p) ==> q == p
  }

  /** Attacks with p's key are attacks of the pair p. */
  ghost predicate KeyMeansPair(attacks: seq<Attack>, p: Signal) {
    forall a :: a in attacks && Key(a) == KeyOf(p.kind, p.severity) ==> OfPair(a, p)
  }

  lemma {:induction false} OpenedKeepsPairs(attacks: seq<Attack>, signals: seq<Attack>, now: Time, p: Signal)
    requires KeyMeansPair(attacks, p) && KeyMeansPair(signals, p)
    ensures KeyMeansPair(Opened(attacks, signals, now), p)
  {
    if signals != [] {
      var n := |signals| - 1;
      assert signals[n] in signals;
      OpenedKeepsPairs(attacks, signals[..n], now, p);
    }
  }

  lemma RecordedKeepsPairs(attacks: seq<Attack>, s: Sample, p: Signal)
    requires KeyMeansPair(attacks, p) && Unmistakable([s], p)
    ensures KeyMeansPair(Recorded(attacks, Pass(s.signals), s.at), p)
  {
    var signals := Pass(s.signals);
    assert [s][0] == s;
    forall a | a in signals && Key(a) == KeyOf(p.kind, p.severity) ensures OfPair(a, p) {
      var i :| 0 <= i < |s.signals| && a == signals[i];
      assert s.signals[i] in s.signals && SameKey(s.signals[i], p);
    }
    OpenedKeepsPairs(attacks, signals, s.at, p);
  }

  lemma {:induction false} AttacksKeepPairs(samples: seq<Sample>, p: Signal)
    requires Unmistakable(samples, p)
    ensures KeyMeansPair(AttacksAfter(samples), p)
  {
    if samples != [] {
      var n := |samples| - 1;
      AttacksKeepPairs(samples[..n], p);
      assert forall q :: q in [samples[n]][0].signals ==> q in samples[n].signals;
      RecordedKeepsPairs(AttacksAfter(samples[..n]), samples[n], p);
    }
  }

  lemma {:induction false} PairIsKey(attacks: seq<Attack>, p: Signal)
    requires KeyMeansPair(attacks, p)
    ensures WithPair(attacks, p) == WithKey(attacks, KeyOf(p.kind, p.severity))
  {
    if attacks != [] {
      var n := |attacks| - 1;
      assert attacks[n] in attacks;
      PairIsKey(attacks[..n], p);
    }
  }

  /** A sample carries p's key exactly when it carries p. */
  lemma CarriesIsPresence(samples: seq<Sample>, p: Signal)
    requires Unmistakable(samples, p)
    ensures Carries(samples, p) == Presence(samples, KeyOf(p.kind, p.severity))
  {
    forall i | 0 <= i < |samples| ensures Carries(samples, p)[i] <==> Presence(samples, KeyOf(p.kind, p.severity))[i] {
      var signals := samples[i].signals;
      if p in signals {
        var j :| 0 <= j < |signals| && signals[j] == p;
        assert Pass(signals)[j] in Pass(signals);
      }
      if a :| a in Pass(signals) && Key(a) == KeyOf(p.kind, p.severity) {
        var j :| 0 <= j < |signals| && a == Pass(signals)[j];
        assert SameKey(signals[j], p);
      }
    }
  }

  /**
    From an empty store, the lifecycles of a pair of type and severity are, one
    for one and in order, the maximal runs of records whose signals contain it,
    if no other pair in the samples is written as the same key.
   */
  lemma PairLifecycles(samples: seq<Sample>, p: Signal)
    requires Unmistakable(samples, p)
    ensures WithPair(AttacksAfter(samples), p) == PairRuns(samples, p)
    ensures Lists(Runs(Carries(samples, p)), Carries(samples, p))
  {
    AttacksKeepPairs(samples, p);
    PairIsKey(AttacksAfter(samples), p);
    CarriesIsPresence(samples, p);
    HistoryIsRunLengthEncoding(samples, KeyOf(p.kind, p.severity));
  }

  predicate NoNul(s: string) {
    '\0' !in s
  }

  /** Among types without NUL characters, a key stands for exactly one pair. */
  lemma KeysAreInjective(kind: string, severity: string, kind': string, severity': string)
    requires NoNul(kind) && NoNul(kind')
    ensures KeyOf(kind, severity) == KeyOf(kind', severity') <==> kind == kind' && severity == severity'
  {
    var k, k' := KeyOf(kind, severity), KeyOf(kind', severity');
    if k == k' {
      assert k[|kind|] == '\0' && k'[|kind'|] == '\0';
      assert forall i :: 0 <= i < |kind| ==> k[i] == kind[i];
      assert forall i :: 0 <= i < |kind'| ==> k'[i] == kind'[i];
      assert |kind| == |kind'|;
      assert kind == k[..|kind|] && kind' == k'[..|kind'|];
      assert severity == k[|kind| + 1..] && severity' == k'[|kind'| + 1..];
    }
  }

  /** Without NUL in any type, every pair's lifecycles are its runs. */
  lemma PairLifecyclesWithoutNul(samples: seq<Sample>, p: Signal)
    requires NoNul(p.kind)
    requires forall i, q :: 0 <= i < |samples| && q in samples[i].signals ==> NoNul(q.kind)
    ensures WithPair(AttacksAfter(samples), p) == PairRuns(samples, p)
  {
    forall i, q | 0 <= i < |samples| && q in samples[i].signals && SameKey(q, p) ensures q == p {
      KeysAreInjective(q.kind, q.severity, p.kind, p.severity);
    }
    PairLifecycles(samples, p);
  }

  /** On every run of samples with these two pairs, the lifecycles of p are its own runs. */
  ghost predicate KeptApart(p: Signal, q: Signal) {
    forall samples :: Over(samples, p, q) ==> WithPair(AttacksAfter(samples), p) == PairRuns(samples, p)
  }

  ghost predicate Over(samples: seq<Sample>, p: Signal, q: Signal) {
    forall i, x :: 0 <= i < |samples| && x in samples[i].signals ==> x == p || x == q
  }

  /** Two different pairs are kept apart on every run exactly when their keys differ. */
  lemma KeptApartIff(p: Signal, q: Signal)
    requires p != q
    ensures KeptApart(p, q) <==> !SameKey(p, q)
  {
    if SameKey(p, q) {
      MergedLifecycles(p, q, 1, 2);
      assert Over([Sample(1, [q]), Sample(2, [p])], p, q);
    } else {
      forall samples | Over(samples, p, q) ensures WithPair(AttacksAfter(samples), p) == PairRuns(samples, p) {
        PairLifecycles(samples, p);
      }
    }
  }

  /** Pairs with one key are merged: q's attack is taken for p, so p's never starts and q's never ends. */
  lemma MergedLifecycles(p: Signal, q: Signal, t: Time, u: Time)
    requires p != q && SameKey(p, q)
    ensures var samples := [Sample(t, [q]), Sample(u, [p])];
            && WithPair(AttacksAfter(samples), p) == [] && PairRuns(samples, p) == [Span(u, None)]
            && WithPair(AttacksAfter(samples), q) == [Span(t, None)] && PairRuns(samples, q) == [Span(t, Some(u))]
  {
    var samples := [Sample(t, [q]), Sample(u, [p])];
    var a := Started(Pass([q])[0], t);
    assert AttacksAfter(samples) == [a] by {
      assert samples[..1] == [samples[0]] && samples[..1][..0] == [];
      OnlySignal([], q, t);
      OnlySignal([a], p, u);
      assert AttacksAfter(samples[..1]) == [a];
    }
    assert Carries(samples, p) == [false, true] && Carries(samples, q) == [true, false];
    RunsOfTwo();
  }

  /** Recording one signal whose key is active, or the first signal of an empty store. */
  lemma OnlySignal(attacks: seq<Attack>, p: Signal, now: Time)
    requires |attacks| <= 1 && forall a :: a in attacks ==> IsActive(a, KeyOf(p.kind, p.severity))
    ensures Recorded(attacks, Pass([p]), now) == if attacks == [] then [Started(Pass([p])[0], now)] else attacks
  {
    var signals := Pass([p]);
    assert signals == [signals[0]] && signals[..0] == [];
    assert Keys([signals[0]]) == {Key(signals[0])};
    assert Opened(attacks, signals, now) == OpenOne(attacks, signals[0], now);
    assert attacks != [] ==> attacks[0] in attacks;
  }

  lemma RunsOfTwo()
    ensures Runs([false, true]) == [(1, 2)] && Runs([true, false]) == [(0, 1)]
  {
    assert [false, true][..1] == [false] && [true, false][..1] == [true];
    assert [false][..0] == [] && [true][..0] == [];
  }

  /** A collision that types containing NUL make possible. */
  lemma KeysCollideOnNul()
    ensures SameKey(Signal(['a', '\0', 'b'], ['c']), Signal(['a'], ['b', '\0', 'c']))
    ensures !KeptApart(Signal(['a', '\0', 'b'], ['c']), Signal(['a'], ['b', '\0', 'c']))
  {
    KeptApartIff(Signal(['a', '\0', 'b'], ['c']), Signal(['a'], ['b', '\0', 'c']));
  }

  /** The newest-43200 window over every run of records. */
  function MetricsAfter(all: seq<Metric>): seq<Metric> {
    if all == [] then [] else Newest(MetricsAfter(all[..|all| - 1]) + [all[|all| - 1]], METRIC_LIMIT)
  }

  lemma {:induction false} MetricsAreNewest(all: seq<Metric>)
    ensures MetricsAfter(all) == if |all| > 43200 then all[|all| - 43200..] else all
  {
    if all != [] {
      var n := |all| - 1;
      MetricsAreNewest(all[..n]);
      assert all == all[..n] + [all[n]];
    }
  }

  /** Every attack on record carries its own start time and type as identifier. */
  lemma {:induction false} AttacksIdentified(samples: seq<Sample>)
    ensures forall a :: a in AttacksAfter(samples) ==>
                          a.id == AttackId(a.startedAt, a.kind) && a.mitigation == "detection only"
  {
    if samples != [] {
      var n := |samples| - 1;
      AttacksIdentified(samples[..n]);
      OpenedIdentified(AttacksAfter(samples[..n]), Pass(samples[n].signals), samples[n].at);
    }
  }

  ghost predicate Identified(attacks: seq<Attack>) {
    forall a :: a in attacks ==> a.id == AttackId(a.startedAt, a.kind) && a.mitigation == "detection only"
  }

  lemma {:induction false} OpenedIdentified(attacks: seq<Attack>, signals: seq<Attack>, now: Time)
    requires Identified(attacks)
    ensures Identified(Opened(attacks, signals, now))
  {
    if signals != [] {
      OpenedIdentified(attacks, signals[..|signals| - 1], now);
    }
  }
}
