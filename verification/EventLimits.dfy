/** The event service's self-pruning rate limit and its duplicate filter (eventservice.py). */
module EventLimits {
  import opened Wrappers
  import opened TtlStore

  datatype Limits = Limits(window: int, minInterval: int)

  // One call: the rate key is (agent, event type); the dedupe key also covers the description, and
  // timeout is how long it is kept.  valid: the input passes validation, which includes that there is an
  // agent.  stored: the database takes the event.
  datatype Attempt = Attempt(
    time: int, rateKey: string, dedupeKey: string, dedupe: bool, force: bool, timeout: int, valid: bool, stored: bool)

  type RateMap = map<string, int>

  function Pruned(lim: Limits, rates: RateMap, now: int): RateMap {
    map key | key in rates && now - rates[key] < lim.window :: rates[key]
  }

  function LastTime(rates: RateMap, key: string): int {
    if key in rates then rates[key] else 0
  }

  predicate Limited(lim: Limits, rates: RateMap, a: Attempt) {
    a.time - LastTime(rates, a.rateKey) < lim.minInterval
  }

  // What the rate map is after an attempt: as in the source, or with nothing ever pruned.
  function RatesAfter(lim: Limits, rates: RateMap, a: Attempt): RateMap {
    var kept := Pruned(lim, rates, a.time);
    if Limited(lim, kept, a) then kept else kept[a.rateKey := a.time]
  }

  function PlainAfter(lim: Limits, rates: RateMap, a: Attempt): RateMap {
    if Limited(lim, rates, a) then rates else rates[a.rateKey := a.time]
  }

  datatype Stats = Stats(hits: nat, misses: nat, creates: nat, errors: nat)

  datatype State = State(rates: RateMap, seen: map<string, Entry<int>>, created: seq<Attempt>, stats: Stats)

  predicate Duplicate(s: State, a: Attempt) {
    a.dedupe && !a.force && Live(s.seen, a.dedupeKey, a.time)
  }

  // The rate slot is used up even when the event turns out to be a duplicate.
  function Step(lim: Limits, s: State, a: Attempt): State {
    if !a.valid then s.(stats := s.stats.(errors := s.stats.errors + 1))
    else
      var s' := s.(rates := RatesAfter(lim, s.rates, a));
      if Limited(lim, Pruned(lim, s.rates, a.time), a) then s'
      else if Duplicate(s, a) then s'.(stats := s.stats.(hits := s.stats.hits + 1))
      else
        var checked := if a.dedupe && !a.force then s.stats.(misses := s.stats.misses + 1) else s.stats;
        if !a.stored then s'.(stats := checked.(errors := checked.errors + 1))
        else s'.(created := s.created + [a],
                 seen := if a.dedupe then s.seen[a.dedupeKey := Entry(a.time, a.time + a.timeout)] else s.seen,
                 stats := checked.(creates := checked.creates + 1))
  }

  class EventService {
    const lim: Limits
    const cache: Store<string, int>
    var rates: RateMap
    var created: seq<Attempt>
    var stats: Stats

    constructor (lim: Limits, cache: Store<string, int>)
      ensures this.lim == lim && this.cache == cache
      ensures rates == map[] && created == [] && stats == Stats(0, 0, 0, 0)
    {
      this.lim, this.cache := lim, cache;
      rates, created, stats := map[], [], Stats(0, 0, 0, 0);
    }

    ghost function View(): State
      reads this, cache
    {
      State(rates, cache.entries, created, stats)
    }

    method CheckRateLimit(a: Attempt) returns (limited: bool)
      modifies this
      ensures limited == Limited(lim, Pruned(lim, old(rates), a.time), a)
      ensures rates == RatesAfter(lim, old(rates), a) && created == old(created) && stats == old(stats)
    {
      rates := map key | key in rates && a.time - rates[key] < lim.window :: rates[key];
      var last := if a.rateKey in rates then rates[a.rateKey] else 0;
      if a.time - last < lim.minInterval {
        return true;
      }
      rates := rates[a.rateKey := a.time];
      return false;
    }

    method CreateEvent(a: Attempt) returns (done: bool)
      modifies this, cache
      ensures View() == Step(lim, old(View()), a)
      ensures done <==> created == old(created) + [a]
    {
      if !a.valid {
        stats := stats.(errors := stats.errors + 1);
        return false;
      }
      var limited := CheckRateLimit(a);
      if limited {
        return false;
      }
      if a.dedupe && !a.force {
        var duplicate := cache.Exists(a.dedupeKey, a.time);
        if duplicate {
          stats := stats.(hits := stats.hits + 1);
          return false;
        }
        stats := stats.(misses := stats.misses + 1);
      }
      if !a.stored {
        stats := stats.(errors := stats.errors + 1);
        return false;
      }
      created := created + [a];
      stats := stats.(creates := stats.creates + 1);
      if a.dedupe {
        cache.SetWithTtl(a.dedupeKey, a.time, a.timeout, a.time);
      }
      return true;
    }
  }

  // ---------------------------------------------------------------------------------------------
  // Whole runs
  // ---------------------------------------------------------------------------------------------

  ghost predicate Chronological(h: seq<Attempt>) {
    && (forall i, j :: 0 <= i < j < |h| ==> h[i].time <= h[j].time)
    && (forall i :: 0 <= i < |h| ==> 0 <= h[i].time)
  }

  function Rates(lim: Limits, h: seq<Attempt>): RateMap {
    if h == [] then map[]
    else
      var last, before := h[|h| - 1], Rates(lim, h[..|h| - 1]);
      if last.valid then RatesAfter(lim, before, last) else before
  }

  function PlainRates(lim: Limits, h: seq<Attempt>): RateMap {
    if h == [] then map[]
    else
      var last, before := h[|h| - 1], PlainRates(lim, h[..|h| - 1]);
      if last.valid then PlainAfter(lim, before, last) else before
  }

  // The decision on attempt i of a run, with the map of the source and with the one never pruned.
  predicate LimitedAt(lim: Limits, h: seq<Attempt>, i: nat)
    requires i < |h|
  {
    Limited(lim, Pruned(lim, Rates(lim, h[..i]), h[i].time), h[i])
  }

  predicate PlainLimitedAt(lim: Limits, h: seq<Attempt>, i: nat)
    requires i < |h|
  {
    Limited(lim, PlainRates(lim, h[..i]), h[i])
  }

  // The pruned map misses only entries that can no longer limit anything.
  ghost predicate OnlyOldMissing(lim: Limits, rates: RateMap, plain: RateMap, now: int) {
    && (forall key :: key in rates ==> key in plain && rates[key] == plain[key])
    && (forall key :: key in plain ==> 0 <= plain[key] <= now)
    && (forall key :: key in plain && key !in rates ==> now - plain[key] >= lim.minInterval)
  }

  lemma {:induction false} PruningOnlyDropsOld(lim: Limits, h: seq<Attempt>, now: int)
    requires Chronological(h) && 0 <= now && (h != [] ==> h[|h| - 1].time <= now)
    requires lim.minInterval <= 0 || lim.minInterval <= lim.window
    ensures OnlyOldMissing(lim, Rates(lim, h), PlainRates(lim, h), now)
  {
    if h != [] {
      PruningOnlyDropsOld(lim, h[..|h| - 1], h[|h| - 1].time);
    }
  }

  lemma FirstAttemptPasses(lim: Limits, a: Attempt)
    requires a.time >= lim.minInterval && a.valid
    ensures Rates(lim, [a]) == PlainRates(lim, [a]) == map[a.rateKey := a.time]
  {
    assert [a][..0] == [];
    assert Rates(lim, []) == map[] && PlainRates(lim, []) == map[];
    assert Pruned(lim, map[], a.time) == map[];
  }

  ghost predicate PruningInvisible(lim: Limits) {
    forall h: seq<Attempt>, i: nat :: Chronological(h) && i < |h| ==> LimitedAt(lim, h, i) == PlainLimitedAt(lim, h, i)
  }

  // Main result: the self-pruning map decides as one that never forgets, exactly when the window
  // covers the interval (or the interval limits nothing).
  lemma PruningInvisibleIff(lim: Limits)
    ensures PruningInvisible(lim) <==> lim.minInterval <= 0 || lim.minInterval <= lim.window
  {
    if lim.minInterval <= 0 || lim.minInterval <= lim.window {
      forall h: seq<Attempt>, i: nat | Chronological(h) && i < |h|
        ensures LimitedAt(lim, h, i) == PlainLimitedAt(lim, h, i)
      {
        PruningOnlyDropsOld(lim, h[..i], h[i].time);
      }
    } else {
      var start := lim.minInterval;
      var again := start + (if lim.window > 0 then lim.window else 0);
      var at := (time: int) => Attempt(time, "k", "", false, false, 0, true, true);
      var h := [at(start), at(again)];
      FirstAttemptPasses(lim, h[0]);
      assert h[..1] == [h[0]];
      assert !LimitedAt(lim, h, 1) && PlainLimitedAt(lim, h, 1);
    }
  }

  // Main result: attempts that pass the limit are spaced by the interval, per key.
  lemma PassedAttemptsSpaced(lim: Limits, h: seq<Attempt>, i: nat, j: nat)
    requires Chronological(h) && (lim.minInterval <= 0 || lim.minInterval <= lim.window)
    requires i < j < |h| && h[i].rateKey == h[j].rateKey && h[i].valid
    requires !LimitedAt(lim, h, i) && !LimitedAt(lim, h, j)
    ensures h[i].time + lim.minInterval <= h[j].time
  {
    if lim.minInterval > 0 {
      LastIsRemembered(lim, h, i, j);
      PruningOnlyDropsOld(lim, h[..i], h[i].time);
      PruningOnlyDropsOld(lim, h[..j], h[j].time);
    }
  }

  lemma {:induction false} LastIsRemembered(lim: Limits, h: seq<Attempt>, i: nat, j: nat)
    requires Chronological(h) && i < j <= |h| && 0 < lim.minInterval <= lim.window
    requires h[i].valid && !LimitedAt(lim, h, i)
    ensures var plain := PlainRates(lim, h[..j]); h[i].rateKey in plain && h[i].time <= plain[h[i].rateKey]
  {
    var before := h[..j - 1];
    assert h[..j][..j - 1] == before && h[..j][|h[..j]| - 1] == h[j - 1];
    if i < j - 1 {
      LastIsRemembered(lim, h, i, j - 1);
    } else {
      PruningOnlyDropsOld(lim, before, h[i].time);
    }
  }

  function Run(lim: Limits, h: seq<Attempt>): State {
    if h == [] then State(map[], map[], [], Stats(0, 0, 0, 0)) else Step(lim, Run(lim, h[..|h| - 1]), h[|h| - 1])
  }

  // The latest of the created events that is remembered under the key.
  function Latest(created: seq<Attempt>, key: string): Option<Attempt> {
    if created == [] then None
    else
      var last := created[|created| - 1];
      if last.dedupe && last.dedupeKey == key then Some(last) else Latest(created[..|created| - 1], key)
  }

  // An unforced duplicate is only created when the latest remembered event under its key has timed out.
  ghost predicate SpacedAt(created: seq<Attempt>, j: nat)
    requires j < |created|
  {
    created[j].dedupe && !created[j].force ==>
      match Latest(created[..j], created[j].dedupeKey)
      case None => true
      case Some(e) => e.time + e.timeout <= created[j].time
  }

  ghost predicate Remembered(s: State) {
    forall key :: match Latest(s.created, key)
      case None => key !in s.seen
      case Some(e) => key in s.seen && s.seen[key].expiry == e.time + e.timeout
  }

  ghost predicate DuplicatesSpaced(s: State) {
    Remembered(s) && forall j :: 0 <= j < |s.created| ==> SpacedAt(s.created, j)
  }

  lemma StepSpacesDuplicates(lim: Limits, s: State, a: Attempt)
    requires DuplicatesSpaced(s)
    ensures DuplicatesSpaced(Step(lim, s, a))
  {
    var s' := Step(lim, s, a);
    if s'.created != s.created {
      assert s'.created[..|s.created|] == s.created;
      forall j | 0 <= j < |s'.created| ensures SpacedAt(s'.created, j) {
        if j < |s.created| {
          assert SpacedAt(s.created, j) && s'.created[..j] == s.created[..j];
        }
      }
    }
  }

  // Main result: in every run, whatever the timeouts of the calls.
  lemma {:induction false} CreatedEventsSpaced(lim: Limits, h: seq<Attempt>)
    ensures DuplicatesSpaced(Run(lim, h))
    ensures Run(lim, h).rates == Rates(lim, h)
  {
    if h != [] {
      CreatedEventsSpaced(lim, h[..|h| - 1]);
      StepSpacesDuplicates(lim, Run(lim, h[..|h| - 1]), h[|h| - 1]);
    }
  }

  // Main result: the filter holds back exactly the unforced duplicates of a remembered event that has not
  // timed out.
  lemma DuplicateExactly(lim: Limits, h: seq<Attempt>, a: Attempt)
    ensures var s := Run(lim, h);
            Duplicate(s, a)
            <==> && a.dedupe && !a.force
                 && match Latest(s.created, a.dedupeKey)
                    case None => false
                    case Some(e) => a.time < e.time + e.timeout
  {
    CreatedEventsSpaced(lim, h);
  }

  lemma {:induction false} CreatedAreAttempts(lim: Limits, h: seq<Attempt>)
    requires Chronological(h)
    ensures var created := Run(lim, h).created;
            && (forall a :: a in created ==> a in h)
            && (forall i, j :: 0 <= i < j < |created| ==> created[i].time <= created[j].time)
  {
    if h != [] {
      var before, last := h[..|h| - 1], h[|h| - 1];
      CreatedAreAttempts(lim, before);
      assert h == before + [last];
      assert forall a :: a in before ==> a.time <= last.time;
      assert Run(lim, h).created in {Run(lim, before).created, Run(lim, before).created + [last]};
    }
  }

  lemma {:induction false} LatestIsAfter(created: seq<Attempt>, i: nat)
    requires i < |created| && created[i].dedupe
    ensures var latest := Latest(created, created[i].dedupeKey);
            latest.Some? && exists k :: i <= k < |created| && latest.value == created[k]
  {
    var last := created[|created| - 1];
    if !(last.dedupe && last.dedupeKey == created[i].dedupeKey) {
      LatestIsAfter(created[..|created| - 1], i);
    }
  }

  lemma AfterTheLatest(created: seq<Attempt>, timeout: int, i: nat, j: nat)
    requires i < j < |created| && SpacedAt(created, j)
    requires forall a :: a in created ==> a.timeout == timeout
    requires forall k :: i <= k < j ==> created[i].time <= created[k].time
    requires created[i].dedupe && created[j].dedupe && !created[j].force
    requires created[i].dedupeKey == created[j].dedupeKey
    ensures created[i].time + timeout <= created[j].time
  {
    LatestIsAfter(created[..j], i);
  }

  // With one timeout for all calls, any two of them are spaced by it.
  lemma AllDuplicatesSpaced(lim: Limits, h: seq<Attempt>, timeout: int, i: nat, j: nat)
    requires Chronological(h) && (forall a :: a in h ==> a.timeout == timeout)
    requires i < j < |Run(lim, h).created|
    requires var e, f := Run(lim, h).created[i], Run(lim, h).created[j];
             e.dedupe && f.dedupe && !f.force && e.dedupeKey == f.dedupeKey
    ensures Run(lim, h).created[i].time + timeout <= Run(lim, h).created[j].time
  {
    var created := Run(lim, h).created;
    CreatedAreAttempts(lim, h);
    CreatedEventsSpaced(lim, h);
    AfterTheLatest(created, timeout, i, j);
  }

  // ---------------------------------------------------------------------------------------------
  // What becomes of an attempt, said in terms of the earlier ones
  // ---------------------------------------------------------------------------------------------

  // Attempt j passed the limit for the key.
  ghost predicate PassedAt(lim: Limits, h: seq<Attempt>, j: nat, key: string) {
    j < |h| && h[j].valid && h[j].rateKey == key && !LimitedAt(lim, h, j)
  }

  lemma PlainChanges(lim: Limits, h: seq<Attempt>, n: nat, key: string)
    requires Chronological(h) && n < |h| && (lim.minInterval <= 0 || lim.minInterval <= lim.window)
    ensures var before, after := PlainRates(lim, h[..n]), PlainRates(lim, h[..n + 1]);
            if PassedAt(lim, h, n, key) then key in after && after[key] == h[n].time
            else (key in before <==> key in after) && (key in before ==> before[key] == after[key])
  {
    assert h[..n + 1][..n] == h[..n];
    PruningOnlyDropsOld(lim, h[..n], h[n].time);
    assert LimitedAt(lim, h, n) == PlainLimitedAt(lim, h, n);
  }

  lemma {:induction false} PlainIsLastPassed(lim: Limits, h: seq<Attempt>, n: nat, key: string) returns (last: nat)
    requires Chronological(h) && n <= |h| && (lim.minInterval <= 0 || lim.minInterval <= lim.window)
    ensures var plain := PlainRates(lim, h[..n]);
            if key in plain
            then last < n && PassedAt(lim, h, last, key) && h[last].time == plain[key]
                 && forall j :: last < j < n ==> !PassedAt(lim, h, j, key)
            else forall j :: 0 <= j < n ==> !PassedAt(lim, h, j, key)
  {
    last := 0;
    if n > 0 {
      last := PlainIsLastPassed(lim, h, n - 1, key);
      PlainChanges(lim, h, n - 1, key);
      if PassedAt(lim, h, n - 1, key) {
        last := n - 1;
      }
    }
  }

  // Main result: an attempt is limited exactly when one with its key passed less than the interval before
  // it, or, if none ever did, the clock itself has not reached the interval.
  lemma LimitedExactly(lim: Limits, h: seq<Attempt>, i: nat)
    requires Chronological(h) && i < |h| && (lim.minInterval <= 0 || lim.minInterval <= lim.window)
    ensures LimitedAt(lim, h, i)
            <==> || (exists j: nat :: j < i && PassedAt(lim, h, j, h[i].rateKey)
                                      && h[i].time < h[j].time + lim.minInterval)
                 || (h[i].time < lim.minInterval && forall j :: 0 <= j < i ==> !PassedAt(lim, h, j, h[i].rateKey))
  {
    PruningOnlyDropsOld(lim, h[..i], h[i].time);
    assert LimitedAt(lim, h, i) == PlainLimitedAt(lim, h, i);
    var last := PlainIsLastPassed(lim, h, i, h[i].rateKey);
    if PassedAt(lim, h, last, h[i].rateKey) && last < i {
      assert forall j: nat :: j < i && PassedAt(lim, h, j, h[i].rateKey) ==> j <= last && h[j].time <= h[last].time;
    }
  }

  // The map never holds an entry older than the window, whatever the keys.
  lemma RatesStayYoung(lim: Limits, h: seq<Attempt>, a: Attempt)
    requires a.valid
    ensures forall key :: key in Rates(lim, h + [a]) && key != a.rateKey ==>
              a.time - Rates(lim, h + [a])[key] < lim.window
  {
    assert (h + [a])[..|h + [a]| - 1] == h;
  }

  datatype Outcome = Invalid | RateLimited | Held | Lost | Created

  // What becomes of attempt a after the attempts h.
  ghost function OutcomeOf(lim: Limits, h: seq<Attempt>, a: Attempt): Outcome {
    var latest := Latest(Run(lim, h).created, a.dedupeKey);
    if !a.valid then Invalid
    else if LimitedAt(lim, h + [a], |h|) then RateLimited
    else if a.dedupe && !a.force && latest.Some? && a.time < latest.value.time + latest.value.timeout then Held
    else if !a.stored then Lost
    else Created
  }

  // Main result: an event is created exactly for a valid attempt that is neither limited nor held back as a
  // duplicate, and that the database takes; and each counter counts what it is named for.
  lemma OutcomeExactly(lim: Limits, h: seq<Attempt>, a: Attempt)
    ensures var s, s', outcome := Run(lim, h), Run(lim, h + [a]), OutcomeOf(lim, h, a);
            && s'.created == (if outcome == Created then s.created + [a] else s.created)
            && s'.stats.creates == s.stats.creates + (if outcome == Created then 1 else 0)
            && s'.stats.hits == s.stats.hits + (if outcome == Held then 1 else 0)
            && s'.stats.errors == s.stats.errors + (if outcome in {Invalid, Lost} then 1 else 0)
            && s'.stats.misses
               == s.stats.misses + (if outcome in {Lost, Created} && a.dedupe && !a.force then 1 else 0)
  {
    assert (h + [a])[..|h|] == h && (h + [a])[|h|] == a;
    CreatedEventsSpaced(lim, h);
    DuplicateExactly(lim, h, a);
  }

  lemma CreatedIff(lim: Limits, h: seq<Attempt>, a: Attempt)
    ensures Run(lim, h + [a]).created == Run(lim, h).created + [a]
            <==> && a.valid && a.stored && !LimitedAt(lim, h + [a], |h|)
                 && !(a.dedupe && !a.force
                      && var latest := Latest(Run(lim, h).created, a.dedupeKey);
                         latest.Some? && a.time < latest.value.time + latest.value.timeout)
  {
    OutcomeExactly(lim, h, a);
    assert |Run(lim, h).created + [a]| != |Run(lim, h).created|;
  }

  function LimitedCount(lim: Limits, h: seq<Attempt>): nat {
    if h == [] then 0
    else
      var n := |h| - 1;
      LimitedCount(lim, h[..n]) + (if h[n].valid && LimitedAt(lim, h, n) then 1 else 0)
  }

  // Every attempt ends in exactly one way, and the statistics count all of them but the limited ones.
  lemma {:induction false} EveryAttemptCounted(lim: Limits, h: seq<Attempt>)
    ensures var s := Run(lim, h);
            && |h| == LimitedCount(lim, h) + s.stats.hits + s.stats.creates + s.stats.errors
            && s.stats.creates == |s.created|
  {
    if h != [] {
      var before, last := h[..|h| - 1], h[|h| - 1];
      EveryAttemptCounted(lim, before);
      assert h == before + [last];
      OutcomeExactly(lim, before, last);
    }
  }
}
