/** Per-component health streaks and the verdict on one monitoring entry (agentMonitoringHandler.py). */
module HealthStreaks {
  import opened Wrappers
  import opened TtlStore

  const HEALTH_STREAK_TTL := 300
  const RED_REQUIRED := 1
  const AMBER_REQUIRED := 2

  datatype Health = Green | Amber | Red

  datatype Metric = Cpu | Memory | Disk | Network | Partition | Other

  datatype Key = Key(agent: string, metric: Metric, comp: Option<string>)

  datatype Counts = Counts(red: nat, amber: nat)

  type StreakStore = map<Key, Entry<Counts>>

  datatype Record = Record(value: Option<real>, comp: Option<string>) {
    // An empty component uuid gives the same key as none.
    function Owner(): Option<string> {
      if comp == Some("") then None else comp
    }
  }

  // One item of the entry: a metric, its two configured thresholds and its records.
  datatype MetricData = MetricData(metric: Metric, critical: Option<real>, warning: Option<real>, records: seq<Record>)
  {
    predicate Graded() {
      metric != Other && critical.Some? && warning.Some?
    }
  }

  // A record that reaches the streak counter, with the thresholds of its metric.
  datatype Sample = Sample(time: int, key: Key, value: real, critical: real, warning: real)

  function StateOf(value: real, critical: real, warning: real): Health {
    if value >= critical then Red else if value >= warning then Amber else Green
  }

  function Next(c: Counts, state: Health): Counts {
    match state
    case Red => Counts(c.red + 1, 0)
    case Amber => Counts(0, c.amber + 1)
    case Green => Counts(0, 0)
  }

  function CountsAt(store: StreakStore, key: Key, now: int): Counts {
    match Lookup(store, key, now)
    case Some(c) => c
    case None => Counts(0, 0)
  }

  function Update(store: StreakStore, key: Key, state: Health, now: int): StreakStore {
    store[key := Entry(Next(CountsAt(store, key, now), state), now + HEALTH_STREAK_TTL)]
  }

  function Feed(store: StreakStore, s: Sample): StreakStore {
    Update(store, s.key, StateOf(s.value, s.critical, s.warning), s.time)
  }

  // The samples of one metric's records, in order.
  function RecordSamples(agent: string, d: MetricData, records: seq<Record>, now: int): seq<Sample>
    requires d.Graded()
  {
    if records == [] then []
    else
      var rest := RecordSamples(agent, d, records[1..], now);
      match records[0].value
      case None => rest
      case Some(v) =>
        [Sample(now, Key(agent, d.metric, records[0].Owner()), v, d.critical.value, d.warning.value)] + rest
  }

  function Samples(agent: string, entry: seq<MetricData>, now: int): seq<Sample> {
    if entry == [] then []
    else
      var rest := Samples(agent, entry[1..], now);
      if entry[0].Graded() then RecordSamples(agent, entry[0], entry[0].records, now) + rest else rest
  }

  // Feeds the samples to the counter, stopping after the one that makes the verdict red.
  function Evaluate(store: StreakStore, samples: seq<Sample>, verdict: Health): (StreakStore, Health)
    decreases |samples|
  {
    if samples == [] then (store, verdict)
    else
      var store' := Feed(store, samples[0]);
      var counts := store'[samples[0].key].value;
      if counts.red >= RED_REQUIRED then (store', Red)
      else Evaluate(store', samples[1..], if counts.amber >= AMBER_REQUIRED then Amber else verdict)
  }

  class Evaluator {
    const rdb: Store<Key, Counts>

    constructor (rdb: Store<Key, Counts>)
      ensures this.rdb == rdb
    {
      this.rdb := rdb;
    }

    method UpdateAndGetStreak(key: Key, state: Health, now: int) returns (red: nat, amber: nat)
      modifies rdb
      ensures rdb.entries == Update(old(rdb.entries), key, state, now)
      ensures Counts(red, amber) == rdb.entries[key].value
    {
      var found := rdb.Get(key, now);
      match found {
        case Some(c) => red, amber := c.red, c.amber;
        case None => red, amber := 0, 0;
      }
      if state == Red {
        red, amber := red + 1, 0;
      } else if state == Amber {
        amber, red := amber + 1, 0;
      } else {
        red, amber := 0, 0;
      }
      rdb.SetWithTtl(key, Counts(red, amber), HEALTH_STREAK_TTL, now);
    }

    // The inner loop of the evaluation: the records of one metric.
    method EvaluateRecords(agent: string, d: MetricData, now: int, verdict: Health) returns (health: Health)
      requires d.Graded() && verdict != Red
      modifies rdb
      ensures (rdb.entries, health) == Evaluate(old(rdb.entries), RecordSamples(agent, d, d.records, now), verdict)
    {
      ghost var expected := Evaluate(rdb.entries, RecordSamples(agent, d, d.records, now), verdict);
      health := verdict;
      assert d.records[0..] == d.records;
      for j := 0 to |d.records|
        invariant expected == Evaluate(rdb.entries, RecordSamples(agent, d, d.records[j..], now), health)
      {
        var r := d.records[j];
        assert d.records[j..][1..] == d.records[j + 1..];
        if r.value.None? {
          continue;
        }
        var state := StateOf(r.value.value, d.critical.value, d.warning.value);
        var red, amber := UpdateAndGetStreak(Key(agent, d.metric, r.Owner()), state, now);
        if red >= RED_REQUIRED {
          return Red;
        } else if amber >= AMBER_REQUIRED {
          health := Amber;
        }
      }
    }

    method EvaluateAgentHealth(agent: string, entry: seq<MetricData>, now: int) returns (health: Health)
      modifies rdb
      ensures (rdb.entries, health) == Evaluate(old(rdb.entries), Samples(agent, entry, now), Green)
    {
      health := Green;
      assert entry[0..] == entry;
      for i := 0 to |entry|
        invariant health != Red
        invariant Evaluate(old(rdb.entries), Samples(agent, entry, now), Green)
                  == Evaluate(rdb.entries, Samples(agent, entry[i..], now), health)
      {
        var d := entry[i];
        assert entry[i..][1..] == entry[i + 1..];
        if d.Graded() {
          EvaluateAppend(rdb.entries, RecordSamples(agent, d, d.records, now),
                         Samples(agent, entry[i + 1..], now), health);
          health := EvaluateRecords(agent, d, now, health);
          if health == Red {
            return;
          }
        }
      }
    }
  }

  lemma {:induction false} EvaluateAppend(store: StreakStore, a: seq<Sample>, b: seq<Sample>, verdict: Health)
    requires verdict != Red
    ensures var (store', health) := Evaluate(store, a, verdict);
            Evaluate(store, a + b, verdict) == if health == Red then (store', Red) else Evaluate(store', b, health)
    decreases |a|
  {
    if a == [] {
      assert a + b == b;
    } else {
      assert (a + b)[1..] == a[1..] + b;
      var store' := Feed(store, a[0]);
      EvaluateAppend(store', a[1..], b, if store'[a[0].key].value.amber >= AMBER_REQUIRED then Amber else verdict);
    }
  }

  // ---------------------------------------------------------------------------------------------
  // Streaks over whole runs
  // ---------------------------------------------------------------------------------------------

  ghost predicate UpTo(h: seq<Sample>, now: int) {
    && (forall i, j :: 0 <= i < j < |h| ==> h[i].time <= h[j].time)
    && (forall i :: 0 <= i < |h| ==> h[i].time <= now)
  }

  function RunFrom(store: StreakStore, h: seq<Sample>): StreakStore {
    if h == [] then store else Feed(RunFrom(store, h[..|h| - 1]), h[|h| - 1])
  }

  // What a sample says, on its numbers.
  predicate Says(s: Sample, state: Health) {
    match state
    case Red => s.value >= s.critical
    case Amber => s.warning <= s.value < s.critical
    case Green => s.value < s.warning && s.value < s.critical
  }

  // The length of the trailing run of one state on one component, gaps below five minutes, seen at now.
  function Trailing(h: seq<Sample>, key: Key, state: Health, now: int): nat {
    if h == [] then 0
    else
      var last, rest := h[|h| - 1], h[..|h| - 1];
      if last.key != key then Trailing(rest, key, state, now)
      else if now - last.time >= 300 || !Says(last, state) then 0
      else 1 + Trailing(rest, key, state, last.time)
  }

  // Main result: the stored counters are the trailing runs, so at most one of them is positive.
  lemma {:induction false} CountsAreTrailingRuns(h: seq<Sample>, key: Key, now: int)
    requires UpTo(h, now)
    ensures CountsAt(RunFrom(map[], h), key, now) == Counts(Trailing(h, key, Red, now), Trailing(h, key, Amber, now))
    ensures Trailing(h, key, Red, now) == 0 || Trailing(h, key, Amber, now) == 0
  {
    if h != [] {
      var last, rest := h[|h| - 1], h[..|h| - 1];
      CountsAreTrailingRuns(rest, key, now);
      CountsAreTrailingRuns(rest, key, last.time);
    }
  }

  // ---------------------------------------------------------------------------------------------
  // The verdict
  // ---------------------------------------------------------------------------------------------

  // The samples that are fed to the counter: all of them, or those up to and including the first red one.
  function Fed(samples: seq<Sample>): seq<Sample> {
    if samples == [] then []
    else if Says(samples[0], Red) then [samples[0]]
    else [samples[0]] + Fed(samples[1..])
  }

  ghost predicate AnyRed(samples: seq<Sample>) {
    exists i :: 0 <= i < |samples| && Says(samples[i], Red)
  }

  // Some sample brings its component's trailing amber run, counted in h and the samples before it, to the requirement.
  ghost predicate AnyAmberRun(h: seq<Sample>, samples: seq<Sample>) {
    exists i :: 0 <= i < |samples| && AmberRunAt(h, samples, i)
  }

  ghost predicate AmberRunAt(h: seq<Sample>, samples: seq<Sample>, i: nat)
    requires i < |samples|
  {
    Trailing(h + samples[..i + 1], samples[i].key, Amber, samples[i].time) >= 2
  }

  ghost predicate AllAt(samples: seq<Sample>, now: int) {
    forall i :: 0 <= i < |samples| ==> samples[i].time == now
  }

  lemma {:induction false} RecordSamplesAt(agent: string, d: MetricData, records: seq<Record>, now: int)
    requires d.Graded()
    ensures AllAt(RecordSamples(agent, d, records, now), now)
    ensures AnyRed(RecordSamples(agent, d, records, now))
            <==> exists r :: r in records && r.value.Some? && r.value.value >= d.critical.value
  {
    if records != [] {
      RecordSamplesAt(agent, d, records[1..], now);
      var samples, rest := RecordSamples(agent, d, records, now), RecordSamples(agent, d, records[1..], now);
      assert records == [records[0]] + records[1..];
      if records[0].value.Some? {
        assert samples[1..] == rest;
        AnyRedSplit([samples[0]], rest);
      }
    }
  }

  lemma AnyRedSplit(a: seq<Sample>, b: seq<Sample>)
    ensures AnyRed(a + b) <==> AnyRed(a) || AnyRed(b)
  {
    if i :| 0 <= i < |a| && Says(a[i], Red) {
      assert Says((a + b)[i], Red);
    }
    if i :| 0 <= i < |b| && Says(b[i], Red) {
      assert Says((a + b)[|a| + i], Red);
    }
  }

  lemma {:induction false} SamplesAt(agent: string, entry: seq<MetricData>, now: int)
    ensures AllAt(Samples(agent, entry, now), now)
    ensures AnyRed(Samples(agent, entry, now))
            <==> exists d, r :: d in entry && d.Graded() && r in d.records
                                && r.value.Some? && r.value.value >= d.critical.value
  {
    if entry != [] {
      SamplesAt(agent, entry[1..], now);
      assert entry == [entry[0]] + entry[1..];
      if entry[0].Graded() {
        RecordSamplesAt(agent, entry[0], entry[0].records, now);
        AnyRedSplit(RecordSamples(agent, entry[0], entry[0].records, now), Samples(agent, entry[1..], now));
      }
    }
  }

  lemma {:induction false} RunFromAppend(store: StreakStore, a: seq<Sample>, b: seq<Sample>)
    ensures RunFrom(store, a + b) == RunFrom(RunFrom(store, a), b)
  {
    if b == [] {
      assert a + b == a;
    } else {
      assert (a + b)[..|a + b| - 1] == a + b[..|b| - 1];
      RunFromAppend(store, a, b[..|b| - 1]);
    }
  }

  lemma {:induction false} EvaluateStores(store: StreakStore, samples: seq<Sample>, verdict: Health)
    ensures Evaluate(store, samples, verdict).0 == RunFrom(store, Fed(samples))
    decreases |samples|
  {
    if samples != [] {
      var store' := Feed(store, samples[0]);
      assert RunFrom(store, [samples[0]]) == store' by {
        assert [samples[0]][..0] == [];
      }
      if !Says(samples[0], Red) {
        var amber := store'[samples[0].key].value.amber;
        EvaluateStores(store', samples[1..], if amber >= AMBER_REQUIRED then Amber else verdict);
        RunFromAppend(store, [samples[0]], Fed(samples[1..]));
      }
    }
  }

  lemma {:induction false} EvaluateJudges(h: seq<Sample>, samples: seq<Sample>, now: int, verdict: Health)
    requires UpTo(h, now) && AllAt(samples, now) && verdict != Red
    ensures var health := Evaluate(RunFrom(map[], h), samples, verdict).1;
            && (health == Red <==> AnyRed(samples))
            && (health == Amber <==> !AnyRed(samples) && (verdict == Amber || AnyAmberRun(h, samples)))
    decreases |samples|
  {
    if samples != [] {
      var s, h' := samples[0], h + [samples[0]];
      assert h'[..|h'| - 1] == h;
      CountsAreTrailingRuns(h', s.key, now);
      assert samples[..1] == [s];
      if !Says(s, Red) {
        var verdict' := if Trailing(h', s.key, Amber, now) >= AMBER_REQUIRED then Amber else verdict;
        EvaluateJudges(h', samples[1..], now, verdict');
        assert samples == [s] + samples[1..];
        AnyRedSplit([s], samples[1..]);
        AmberRunSplit(h, samples);
      }
    }
  }

  lemma AmberRunSplit(h: seq<Sample>, samples: seq<Sample>)
    requires samples != []
    ensures AnyAmberRun(h, samples) <==> AmberRunAt(h, samples, 0) || AnyAmberRun(h + [samples[0]], samples[1..])
  {
    var h', rest := h + [samples[0]], samples[1..];
    forall i | 0 <= i < |rest|
      ensures AmberRunAt(h', rest, i) == AmberRunAt(h, samples, i + 1)
    {
      assert h' + rest[..i + 1] == h + samples[..i + 2];
    }
    if i :| 0 <= i < |samples| && AmberRunAt(h, samples, i) && i != 0 {
      assert AmberRunAt(h', rest, i - 1);
    }
    if i :| 0 <= i < |rest| && AmberRunAt(h', rest, i) {
      assert AmberRunAt(h, samples, i + 1);
    }
  }

  // The samples of an entry are its values, one for each record that has one, of the metrics with both
  // thresholds; an empty component uuid counts as none.
  ghost predicate Yields(agent: string, d: MetricData, r: Record, now: int, s: Sample) {
    && d.metric != Other && d.critical.Some? && d.warning.Some? && r.value.Some?
    && s.time == now && s.value == r.value.value && s.critical == d.critical.value && s.warning == d.warning.value
    && s.key.agent == agent && s.key.metric == d.metric
    && s.key.comp == (if r.comp == Some("") then None else r.comp)
  }

  lemma {:induction false} SamplesAre(agent: string, entry: seq<MetricData>, now: int, s: Sample)
    ensures s in Samples(agent, entry, now)
            <==> exists d, r :: d in entry && r in d.records && Yields(agent, d, r, now, s)
  {
    if entry != [] {
      assert entry == [entry[0]] + entry[1..];
      SamplesAre(agent, entry[1..], now, s);
      if entry[0].Graded() {
        RecordSamplesAre(agent, entry[0], entry[0].records, now, s);
      }
    }
  }

  lemma {:induction false} RecordSamplesAre(agent: string, d: MetricData, records: seq<Record>, now: int, s: Sample)
    requires d.Graded()
    ensures s in RecordSamples(agent, d, records, now)
            <==> exists r :: r in records && Yields(agent, d, r, now, s)
  {
    if records != [] {
      assert records == [records[0]] + records[1..];
      RecordSamplesAre(agent, d, records[1..], now, s);
      var r := records[0];
      assert s == Sample(s.time, Key(s.key.agent, s.key.metric, s.key.comp), s.value, s.critical, s.warning);
      assert Yields(agent, d, r, now, s)
             <==> r.value.Some? && s == Sample(now, Key(agent, d.metric, r.Owner()), r.value.value,
                                               d.critical.value, d.warning.value);
    }
  }

  // And they come in the order of the entry and of its records.
  lemma {:induction false} SamplesAppend(agent: string, a: seq<MetricData>, b: seq<MetricData>, now: int)
    ensures Samples(agent, a + b, now) == Samples(agent, a, now) + Samples(agent, b, now)
  {
    if a == [] {
      assert a + b == b;
    } else {
      assert (a + b)[1..] == a[1..] + b;
      SamplesAppend(agent, a[1..], b, now);
    }
  }

  lemma {:induction false} RecordSamplesAppend(
    agent: string, d: MetricData, a: seq<Record>, b: seq<Record>, now: int)
    requires d.Graded()
    ensures RecordSamples(agent, d, a + b, now) == RecordSamples(agent, d, a, now) + RecordSamples(agent, d, b, now)
  {
    if a == [] {
      assert a + b == b;
    } else {
      assert (a + b)[1..] == a[1..] + b;
      RecordSamplesAppend(agent, d, a[1..], b, now);
    }
  }

  // Main result: what evaluate_agent_health answers and stores, after any run of earlier samples.
  lemma HealthVerdict(h: seq<Sample>, agent: string, entry: seq<MetricData>, now: int)
    requires UpTo(h, now)
    ensures var samples := Samples(agent, entry, now);
            var (store, health) := Evaluate(RunFrom(map[], h), samples, Green);
            && store == RunFrom(map[], h + Fed(samples))
            && (health == Red <==> exists d, r :: d in entry && d.Graded() && r in d.records
                                                  && r.value.Some? && r.value.value >= d.critical.value)
            && (health == Amber <==> health != Red && AnyAmberRun(h, samples))
  {
    SamplesAt(agent, entry, now);
    EvaluateStores(RunFrom(map[], h), Samples(agent, entry, now), Green);
    RunFromAppend(map[], h, Fed(Samples(agent, entry, now)));
    EvaluateJudges(h, Samples(agent, entry, now), now, Green);
  }

  // In particular, values below both of their thresholds are green after whatever came before, and a
  // steady amber component turns the verdict amber with its second entry.
  lemma QuietIsGreen(h: seq<Sample>, agent: string, entry: seq<MetricData>, now: int)
    requires UpTo(h, now)
    requires forall d, r, s :: d in entry && r in d.records && Yields(agent, d, r, now, s)
               ==> s.value < s.warning && s.value < s.critical
    ensures Evaluate(RunFrom(map[], h), Samples(agent, entry, now), Green).1 == Green
  {
    var samples := Samples(agent, entry, now);
    HealthVerdict(h, agent, entry, now);
    SamplesAt(agent, entry, now);
    forall i | 0 <= i < |samples| ensures Says(samples[i], Green) {
      SamplesAre(agent, entry, now, samples[i]);
    }
    EvaluateJudges(h, samples, now, Green);
    forall i | 0 <= i < |samples| ensures !AmberRunAt(h, samples, i) {
      assert (h + samples[..i + 1])[|h| + i] == samples[i];
    }
  }

  lemma OneSample(agent: string, metric: Metric, comp: Option<string>,
                  value: real, critical: real, warning: real, now: int)
    requires metric != Other
    ensures Samples(agent, [MetricData(metric, Some(critical), Some(warning), [Record(Some(value), comp)])], now)
            == [Sample(now, Key(agent, metric, if comp == Some("") then None else comp), value, critical, warning)]
  {
    var r := Record(Some(value), comp);
    var d := MetricData(metric, Some(critical), Some(warning), [r]);
    assert [d][1..] == [] && [r][1..] == [];
    assert RecordSamples(agent, d, [], now) == [] && Samples(agent, [], now) == [];
    assert |RecordSamples(agent, d, [r], now)| == 1;
  }

  lemma SecondAmberShows(h: seq<Sample>, agent: string, metric: Metric, comp: Option<string>,
                         value: real, critical: real, warning: real, now: int, later: int)
    requires UpTo(h, now) && now <= later < now + 300
    requires metric != Other && warning <= value < critical
    ensures var entry := [MetricData(metric, Some(critical), Some(warning), [Record(Some(value), comp)])];
            var first := Samples(agent, entry, now);
            Evaluate(RunFrom(map[], h + first), Samples(agent, entry, later), Green).1 == Amber
  {
    var entry := [MetricData(metric, Some(critical), Some(warning), [Record(Some(value), comp)])];
    var first, second := Samples(agent, entry, now), Samples(agent, entry, later);
    OneSample(agent, metric, comp, value, critical, warning, now);
    OneSample(agent, metric, comp, value, critical, warning, later);
    assert second[..1] == second;
    var all := h + first + second;
    assert all[..|all| - 1] == h + first && (h + first)[..|h + first| - 1] == h;
    HealthVerdict(h + first, agent, entry, later);
    assert AmberRunAt(h + first, second, 0);
  }
}
