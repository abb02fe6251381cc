/** What the CPU streaks guarantee over whole runs. */
module CpuRuns {
  import opened Wrappers
  import opened TtlStore
  import opened AlertThrottle
  import opened CpuAlerts

  // The alert service is shared: between two CPU readings other components may use it.
  datatype Event = Measured(r: Reading) | Other(req: Request, at: int) {
    function Time(): int {
      match this
      case Measured(r) => r.now
      case Other(_, at) => at
    }

    // The service's clock during the event.
    function ServiceTime(): int {
      match this
      case Measured(r) => r.sentAt
      case Other(_, at) => at
    }
  }

  ghost predicate Run(h: seq<Event>) {
    && (forall i, j :: 0 <= i < j < |h| ==> h[i].Time() <= h[j].Time())
    && (forall i :: 0 <= i < |h| && h[i].Other? ==> h[i].req.kind != Cpu)
  }

  function Step(cfg: CpuConfig, s: CpuState, e: Event): CpuState {
    match e
    case Measured(r) => Evaluate(cfg, s, r)
    case Other(req, at) => s.(service := Trigger(cfg.service, s.service, req, at))
  }

  // The state after the first n events.
  function After(cfg: CpuConfig, h: seq<Event>, n: nat): CpuState
    requires n <= |h|
  {
    if n == 0 then CpuState(map[], State(map[], [])) else Step(cfg, After(cfg, h, n - 1), h[n - 1])
  }

  predicate ReadingOf(h: seq<Event>, i: nat, cpu: string) {
    i < |h| && h[i].Measured? && h[i].r.cpu == cpu
  }

  ghost predicate TriggersAt(cfg: CpuConfig, h: seq<Event>, i: nat, key: TrackKey) {
    ReadingOf(h, i, key.cpu) && Triggers(cfg, After(cfg, h, i).tracks, h[i].r, key.level)
  }

  // ---------------------------------------------------------------------------------------------
  // The specification: no cache, only readings
  // ---------------------------------------------------------------------------------------------

  // A reading is of the highest level it reaches, and may be of none.
  predicate AtLevel(t: Thresholds, util: real, level: Level) {
    match level
    case Critical => t.critical <= util
    case Warning => t.warning <= util < t.critical
    case Info => t.info <= util < t.warning && util < t.critical
  }

  lemma AtLevelIs(t: Thresholds, util: real)
    ensures forall level :: AtLevel(t, util, level) <==> LevelOf(t, util) == Some(level)
  {
  }

  predicate OldEnough(cfg: CpuConfig, seen: Option<int>, now: int) {
    seen.Some? && now - seen.value >= 60 * cfg.continuousMinutes
  }

  // The start of the streak that the first n events leave open, seen at now: a reading of the level
  // opens it, restarts it when it is old enough, and otherwise leaves it; a reading below Info, or one
  // of a higher level whose own streak is old enough, ends it; and it is gone once its ttl is over.
  function StartSeen(cfg: CpuConfig, h: seq<Event>, n: nat, key: TrackKey, now: int): Option<int>
    requires n <= |h|
  {
    if n == 0 then None
    else if !ReadingOf(h, n - 1, key.cpu) then StartSeen(cfg, h, n - 1, key, now)
    else
      var r := h[n - 1].r;
      if AtLevel(cfg.thresholds, r.util, key.level) then
        var seen := StartSeen(cfg, h, n - 1, key, r.now);
        var start := if seen.None? || OldEnough(cfg, seen, r.now) then r.now else seen.value;
        if now < start + cfg.ttl then Some(start) else None
      else if forall level :: !AtLevel(cfg.thresholds, r.util, level) then None
      else if exists level :: Lower(cfg.thresholds, key.level, level) && AtLevel(cfg.thresholds, r.util, level)
                              && OldEnough(cfg, StartSeen(cfg, h, n - 1, TrackKey(key.cpu, level), r.now), r.now)
      then None
      else StartSeen(cfg, h, n - 1, key, now)
  }

  ghost predicate OfLevel(cfg: CpuConfig, h: seq<Event>, i: nat, key: TrackKey) {
    ReadingOf(h, i, key.cpu) && AtLevel(cfg.thresholds, h[i].r.util, key.level)
  }

  // The readings call for a trigger at event i.
  ghost predicate CalledAt(cfg: CpuConfig, h: seq<Event>, i: nat, key: TrackKey) {
    OfLevel(cfg, h, i, key) && OldEnough(cfg, StartSeen(cfg, h, i, key, h[i].r.now), h[i].r.now)
  }

  // Reading i of the level finds no open streak and starts one.
  ghost predicate OpensAt(cfg: CpuConfig, h: seq<Event>, i: nat, key: TrackKey) {
    OfLevel(cfg, h, i, key) && StartSeen(cfg, h, i, key, h[i].r.now) == None
  }

  // Event i ends the streak: a reading below Info, or a trigger of a level above it.
  ghost predicate EndsAt(cfg: CpuConfig, h: seq<Event>, i: nat, key: TrackKey) {
    && ReadingOf(h, i, key.cpu)
    && ((forall level :: !AtLevel(cfg.thresholds, h[i].r.util, level))
        || exists level :: Lower(cfg.thresholds, key.level, level)
                           && CalledAt(cfg, h, i, TrackKey(key.cpu, level)))
  }

  ghost predicate StartsAt(cfg: CpuConfig, h: seq<Event>, i: nat, key: TrackKey) {
    OpensAt(cfg, h, i, key) || CalledAt(cfg, h, i, key)
  }

  ghost predicate Untouched(cfg: CpuConfig, h: seq<Event>, from: nat, until: nat, key: TrackKey) {
    forall i :: from <= i < until ==> !EndsAt(cfg, h, i, key) && !StartsAt(cfg, h, i, key)
  }

  // Reading start opened or restarted a streak that nothing has touched before reading i, which
  // comes when the streak has the required age and has not expired.
  ghost predicate Ripe(cfg: CpuConfig, h: seq<Event>, start: nat, i: nat, key: TrackKey) {
    && start < i && ReadingOf(h, i, key.cpu)
    && StartsAt(cfg, h, start, key) && Untouched(cfg, h, start + 1, i, key)
    && 60 * cfg.continuousMinutes <= h[i].r.now - h[start].r.now < cfg.ttl
  }

  // ---------------------------------------------------------------------------------------------
  // The cache refines it
  // ---------------------------------------------------------------------------------------------

  lemma LowerIs(t: Thresholds, a: Level, b: Level)
    ensures Lower(t, a, b) <==> t.Of(a) < t.Of(b)
  {
  }

  // What one reading does to a track of its CPU.
  lemma TrackStep(cfg: CpuConfig, s: CpuState, r: Reading, key: TrackKey)
    requires r.cpu == key.cpu
    ensures var tracks := Evaluate(cfg, s, r).tracks;
            if AtLevel(cfg.thresholds, r.util, key.level)
            then var start := Lookup(s.tracks, key, r.now);
                 key in tracks
                 && tracks[key] == if start.None? || OldEnough(cfg, start, r.now)
                                   then Entry(r.now, r.now + cfg.ttl) else s.tracks[key]
            else if (forall level :: !AtLevel(cfg.thresholds, r.util, level))
                    || (exists level :: Lower(cfg.thresholds, key.level, level)
                                        && AtLevel(cfg.thresholds, r.util, level)
                                        && OldEnough(cfg, Lookup(s.tracks, TrackKey(key.cpu, level), r.now), r.now))
            then key !in tracks
            else (key in s.tracks <==> key in tracks) && (key in s.tracks ==> s.tracks[key] == tracks[key])
  {
    AtLevelIs(cfg.thresholds, r.util);
    if LevelOf(cfg.thresholds, r.util).Some? {
      LowerIs(cfg.thresholds, key.level, LevelOf(cfg.thresholds, r.util).value);
    }
  }

  lemma {:induction false} StartRefined(cfg: CpuConfig, h: seq<Event>, n: nat, key: TrackKey, now: int)
    requires n <= |h|
    ensures Lookup(After(cfg, h, n).tracks, key, now) == StartSeen(cfg, h, n, key, now)
    ensures var tracks := After(cfg, h, n).tracks; key in tracks ==> tracks[key].expiry == tracks[key].value + cfg.ttl
  {
    if n > 0 {
      StartRefined(cfg, h, n - 1, key, now);
      if ReadingOf(h, n - 1, key.cpu) {
        TrackStep(cfg, After(cfg, h, n - 1), h[n - 1].r, key);
        forall level
          ensures Lookup(After(cfg, h, n - 1).tracks, TrackKey(key.cpu, level), h[n - 1].r.now)
                  == StartSeen(cfg, h, n - 1, TrackKey(key.cpu, level), h[n - 1].r.now)
        {
          StartRefined(cfg, h, n - 1, TrackKey(key.cpu, level), h[n - 1].r.now);
        }
      }
    }
  }

  // Main result: a level triggers exactly when the readings call for it.
  lemma TriggersExactly(cfg: CpuConfig, h: seq<Event>, i: nat, key: TrackKey)
    ensures TriggersAt(cfg, h, i, key) <==> CalledAt(cfg, h, i, key)
  {
    if ReadingOf(h, i, key.cpu) {
      StartRefined(cfg, h, i, key, h[i].r.now);
      AtLevelIs(cfg.thresholds, h[i].r.util);
    }
  }

  lemma {:induction false} StartExplained(cfg: CpuConfig, h: seq<Event>, n: nat, key: TrackKey, now: int)
    returns (start: nat)
    requires n <= |h| && StartSeen(cfg, h, n, key, now).Some?
    ensures start < n && StartsAt(cfg, h, start, key) && Untouched(cfg, h, start + 1, n, key)
    ensures StartSeen(cfg, h, n, key, now) == Some(h[start].r.now) && now < h[start].r.now + cfg.ttl
  {
    if StartsAt(cfg, h, n - 1, key) {
      start := n - 1;
    } else {
      start := StartExplained(cfg, h, n - 1, key, if OfLevel(cfg, h, n - 1, key) then h[n - 1].r.now else now);
    }
  }

  lemma {:induction false} StartStays(cfg: CpuConfig, h: seq<Event>, start: nat, n: nat, key: TrackKey, now: int)
    requires start < n <= |h| && StartsAt(cfg, h, start, key) && Untouched(cfg, h, start + 1, n, key)
    requires now < h[start].r.now + cfg.ttl
    ensures StartSeen(cfg, h, n, key, now) == Some(h[start].r.now)
  {
    if start < n - 1 {
      assert !EndsAt(cfg, h, n - 1, key) && !StartsAt(cfg, h, n - 1, key);
      if OfLevel(cfg, h, n - 1, key) {
        var start' := StartExplained(cfg, h, n - 1, key, h[n - 1].r.now);
        assert start' == start;
      } else {
        StartStays(cfg, h, start, n - 1, key, now);
        if ReadingOf(h, n - 1, key.cpu) {
          EndsOnlyThen(cfg, h, n - 1, key);
        }
      }
    }
  }

  lemma EndsOnlyThen(cfg: CpuConfig, h: seq<Event>, i: nat, key: TrackKey)
    requires ReadingOf(h, i, key.cpu) && !EndsAt(cfg, h, i, key) && !OfLevel(cfg, h, i, key)
    ensures forall now :: StartSeen(cfg, h, i + 1, key, now) == StartSeen(cfg, h, i, key, now)
  {
    forall level | Lower(cfg.thresholds, key.level, level)
      ensures !CalledAt(cfg, h, i, TrackKey(key.cpu, level))
    {
    }
  }

  // Main result: a level triggers exactly on a reading of that level at which its streak is ripe.
  lemma TriggersIffRipe(cfg: CpuConfig, h: seq<Event>, i: nat, key: TrackKey)
    ensures TriggersAt(cfg, h, i, key) <==> OfLevel(cfg, h, i, key) && exists start :: Ripe(cfg, h, start, i, key)
  {
    TriggersExactly(cfg, h, i, key);
    if TriggersAt(cfg, h, i, key) {
      var start := StartExplained(cfg, h, i, key, h[i].r.now);
      assert Ripe(cfg, h, start, i, key);
    }
    if start :| Ripe(cfg, h, start, i, key) {
      StartStays(cfg, h, start, i, key, h[i].r.now);
    }
  }

  // Main result: the alert service is asked once for each trigger that the readings call for, with the
  // reading's load, and by the other components; nothing else changes it.
  lemma TriggersAsk(cfg: CpuConfig, h: seq<Event>, i: nat)
    requires i < |h|
    ensures var before, after := After(cfg, h, i).service, After(cfg, h, i + 1).service;
            match h[i]
            case Other(req, at) => after == Trigger(cfg.service, before, req, at)
            case Measured(r) =>
              after == if exists level :: CalledAt(cfg, h, i, TrackKey(r.cpu, level))
                       then Trigger(cfg.service, before, AlertThrottle.Request(Cpu, r.cpu, r.util, r.complete),
                                    r.sentAt)
                       else before
  {
    if h[i].Measured? {
      forall level ensures TriggersAt(cfg, h, i, TrackKey(h[i].r.cpu, level))
                           <==> CalledAt(cfg, h, i, TrackKey(h[i].r.cpu, level))
      {
        TriggersExactly(cfg, h, i, TrackKey(h[i].r.cpu, level));
      }
    }
  }

  // Main result: triggers of one level of one CPU are a whole streak apart, across restarts, clears and expiry.
  lemma TriggersSpaced(cfg: CpuConfig, h: seq<Event>, i: nat, j: nat, key: TrackKey)
    requires Run(h) && i < j && TriggersAt(cfg, h, i, key) && TriggersAt(cfg, h, j, key)
    ensures h[i].r.now + 60 * cfg.continuousMinutes <= h[j].r.now
  {
    TriggersExactly(cfg, h, i, key);
    TriggersExactly(cfg, h, j, key);
    var start := StartExplained(cfg, h, j, key, h[j].r.now);
    assert StartsAt(cfg, h, i, key);
    assert h[i].Time() <= h[start].Time();
  }

  // ---------------------------------------------------------------------------------------------
  // The throttle behind the triggers
  // ---------------------------------------------------------------------------------------------

  // The alert service reads its clock at most lag seconds after the evaluation did.
  ghost predicate Lagging(h: seq<Event>, lag: int) {
    forall i :: 0 <= i < |h| && h[i].Measured? ==> h[i].r.now <= h[i].r.sentAt <= h[i].r.now + lag
  }

  // Each event is over before the next one begins.
  ghost predicate InTurn(h: seq<Event>) {
    forall i, j :: 0 <= i < j < |h| ==> h[i].ServiceTime() <= h[j].Time()
  }

  // The trigger at event i gets its alert row.
  ghost predicate ServedAt(cfg: CpuConfig, h: seq<Event>, i: nat, key: TrackKey)
    requires ReadingOf(h, i, key.cpu)
  {
    After(cfg, h, i + 1).service.rows
    == After(cfg, h, i).service.rows + [Row(AlertKey(Cpu, key.cpu, key.level), h[i].r.sentAt)]
  }

  // Whatever the service last sent for a level came at most lag after the start of the level's track.
  lemma {:induction false} SentBeforeStart(cfg: CpuConfig, h: seq<Event>, n: nat, key: TrackKey, lag: int)
    requires Run(h) && Lagging(h, lag) && n <= |h| && cfg.service.thresholds == cfg.thresholds
    ensures var s, sent := After(cfg, h, n), AlertKey(Cpu, key.cpu, key.level);
            sent in s.service.lastSent ==>
              && (key in s.tracks ==> s.service.lastSent[sent] <= s.tracks[key].value + lag)
              && n > 0 && s.service.lastSent[sent] <= h[n - 1].Time() + lag
  {
    if n > 0 {
      SentBeforeStart(cfg, h, n - 1, key, lag);
      assert n > 1 ==> h[n - 2].Time() <= h[n - 1].Time();
    }
  }

  // Main result: with equal thresholds and a throttle that is shorter than the streak by at least the
  // lag between the two clocks, every trigger of an alerting level gets its row.
  lemma TriggerNeverThrottled(cfg: CpuConfig, h: seq<Event>, i: nat, key: TrackKey, lag: int)
    requires Run(h) && Lagging(h, lag) && TriggersAt(cfg, h, i, key) && h[i].r.complete
    requires cfg.service.thresholds == cfg.thresholds && key.level != Info
    requires 60 * cfg.service.throttleMinutes + lag <= 60 * cfg.continuousMinutes
    ensures ServedAt(cfg, h, i, key)
  {
    SentBeforeStart(cfg, h, i, key, lag);
  }

  lemma {:induction false} SentInTurn(cfg: CpuConfig, h: seq<Event>, n: nat, sent: AlertKey, now: int)
    requires n <= |h| && (forall i :: 0 <= i < n ==> h[i].ServiceTime() <= now)
    ensures var service := After(cfg, h, n).service; sent in service.lastSent ==> service.lastSent[sent] <= now
  {
    if n > 0 {
      SentInTurn(cfg, h, n - 1, sent, now);
    }
  }

  ghost predicate AlwaysServed(cfg: CpuConfig, lag: int) {
    forall h: seq<Event>, i: nat, key: TrackKey ::
      Run(h) && Lagging(h, lag) && InTurn(h) && TriggersAt(cfg, h, i, key) && h[i].r.complete && key.level != Info
      ==> ServedAt(cfg, h, i, key)
  }

  // Main result: that condition is exact, unless the throttle holds nothing back at all.
  lemma AlwaysServedIff(cfg: CpuConfig, lag: nat)
    requires cfg.service.thresholds == cfg.thresholds
    requires 0 <= cfg.continuousMinutes && 60 * cfg.continuousMinutes < cfg.ttl
    ensures AlwaysServed(cfg, lag)
            <==> cfg.service.throttleMinutes <= 0
                 || 60 * cfg.service.throttleMinutes + lag <= 60 * cfg.continuousMinutes
  {
    if cfg.service.throttleMinutes <= 0 || 60 * cfg.service.throttleMinutes + lag <= 60 * cfg.continuousMinutes {
      forall h: seq<Event>, i: nat, key: TrackKey |
        Run(h) && Lagging(h, lag) && InTurn(h) && TriggersAt(cfg, h, i, key) && h[i].r.complete && key.level != Info
        ensures ServedAt(cfg, h, i, key)
      {
        if cfg.service.throttleMinutes <= 0 {
          SentInTurn(cfg, h, i, AlertKey(Cpu, key.cpu, key.level), h[i].r.now);
        } else {
          TriggerNeverThrottled(cfg, h, i, key, lag);
        }
      }
    } else {
      LagSwallows(cfg, "cpu", cfg.thresholds.critical, lag);
    }
  }

  // With the values in the settings, where throttle and streak are equal, any lag at all is too much.
  lemma EqualMinutesAllowNoLag(cfg: CpuConfig, lag: nat)
    requires cfg.service.thresholds == cfg.thresholds
    requires cfg.service.throttleMinutes == cfg.continuousMinutes > 0 && 60 * cfg.continuousMinutes < cfg.ttl
    ensures AlwaysServed(cfg, lag) <==> lag == 0
  {
    AlwaysServedIff(cfg, lag);
  }

  // A steady load whose first trigger reaches the service late, by the lag or by the length of the streak.
  function LateTrigger(cfg: CpuConfig, cpu: string, util: real, lag: nat): seq<Event> {
    var c := 60 * cfg.continuousMinutes;
    [Measured(Reading(0, cpu, util, true, 0)),
     Measured(Reading(c, cpu, util, true, c + (if lag < c then lag else c))),
     Measured(Reading(2 * c, cpu, util, true, 2 * c))]
  }

  lemma LagSwallows(cfg: CpuConfig, cpu: string, util: real, lag: nat)
    requires cfg.service.thresholds == cfg.thresholds && util >= cfg.thresholds.critical
    requires 0 <= cfg.continuousMinutes && 60 * cfg.continuousMinutes < cfg.ttl
    requires cfg.service.throttleMinutes > 0
    requires 60 * cfg.service.throttleMinutes + lag > 60 * cfg.continuousMinutes
    ensures var h := LateTrigger(cfg, cpu, util, lag);
            && Run(h) && Lagging(h, lag) && InTurn(h) && TriggersAt(cfg, h, 2, TrackKey(cpu, Critical))
            && After(cfg, h, 3).service == After(cfg, h, 2).service
            && !ServedAt(cfg, h, 2, TrackKey(cpu, Critical))
  {
    var c, key, sent := 60 * cfg.continuousMinutes, TrackKey(cpu, Critical), AlertKey(Cpu, cpu, Critical);
    var h := LateTrigger(cfg, cpu, util, lag);
    assert StartSeen(cfg, h, 1, key, c) == Some(0);
    TriggersExactly(cfg, h, 1, key);
    assert StartSeen(cfg, h, 2, key, 2 * c) == Some(c);
    TriggersExactly(cfg, h, 2, key);
    assert After(cfg, h, 1).service == State(map[], []);
    assert After(cfg, h, 2).service.lastSent[sent] == h[1].r.sentAt;
  }

  // ---------------------------------------------------------------------------------------------
  // Sustained breaches
  // ---------------------------------------------------------------------------------------------

  // The load stayed at or above the level from the start of a ripe streak up to reading i.
  ghost predicate SustainedAt(cfg: CpuConfig, h: seq<Event>, i: nat, key: TrackKey) {
    exists start :: Ripe(cfg, h, start, i, key) && StaysAbove(cfg, h, start, i, key)
  }

  ghost predicate StaysAbove(cfg: CpuConfig, h: seq<Event>, from: nat, until: nat, key: TrackKey) {
    forall k :: from <= k <= until && ReadingOf(h, k, key.cpu) ==> Reached(cfg.thresholds, h[k].r.util, key.level)
  }

  ghost predicate AlwaysSustained(cfg: CpuConfig, level: Level) {
    forall h: seq<Event>, i: nat, key: TrackKey ::
      Run(h) && key.level == level && TriggersAt(cfg, h, i, key) ==> SustainedAt(cfg, h, i, key)
  }

  // A reading at a lower level leaves the higher track alive, so a trigger need not follow a sustained
  // breach.  Only the lowest threshold is safe, because a reading below it clears every track.
  lemma SustainedIffLowest(cfg: CpuConfig, level: Level)
    requires cfg.thresholds.info <= cfg.thresholds.warning < cfg.thresholds.critical
    requires 0 <= cfg.continuousMinutes && 60 * cfg.continuousMinutes < cfg.ttl
    ensures AlwaysSustained(cfg, level) <==> !Lower(cfg.thresholds, Info, level)
  {
    if !Lower(cfg.thresholds, Info, level) {
      forall h: seq<Event>, i: nat, key: TrackKey | Run(h) && key.level == level && TriggersAt(cfg, h, i, key)
        ensures SustainedAt(cfg, h, i, key)
      {
        TriggersIffRipe(cfg, h, i, key);
        var start: nat :| Ripe(cfg, h, start, i, key);
        forall k: nat | start <= k <= i && ReadingOf(h, k, key.cpu)
          ensures Reached(cfg.thresholds, h[k].r.util, key.level)
        {
          assert start < k < i ==> !EndsAt(cfg, h, k, key);
        }
      }
    } else {
      DipIsForgotten(cfg, level);
    }
  }

  function Dip(cfg: CpuConfig, level: Level): seq<Event> {
    var at := (now: int, util: real) => Measured(Reading(now, "cpu", util, true, now));
    [at(0, cfg.thresholds.Of(level)), at(0, cfg.thresholds.info),
     at(60 * cfg.continuousMinutes, cfg.thresholds.Of(level))]
  }

  lemma DipIsForgotten(cfg: CpuConfig, level: Level)
    requires cfg.thresholds.info <= cfg.thresholds.warning < cfg.thresholds.critical
    requires 0 <= cfg.continuousMinutes && 60 * cfg.continuousMinutes < cfg.ttl
    requires Lower(cfg.thresholds, Info, level)
    ensures Run(Dip(cfg, level)) && TriggersAt(cfg, Dip(cfg, level), 2, TrackKey("cpu", level))
    ensures !SustainedAt(cfg, Dip(cfg, level), 2, TrackKey("cpu", level))
  {
    var h, key, c := Dip(cfg, level), TrackKey("cpu", level), 60 * cfg.continuousMinutes;
    assert AtLevel(cfg.thresholds, cfg.thresholds.Of(level), level);
    assert StartSeen(cfg, h, 1, key, c) == Some(0);
    assert ReadingOf(h, 1, "cpu") && !AtLevel(cfg.thresholds, h[1].r.util, level);
    assert AtLevel(cfg.thresholds, h[1].r.util, Info) || AtLevel(cfg.thresholds, h[1].r.util, Warning);
    assert forall other :: AtLevel(cfg.thresholds, h[1].r.util, other) ==> !Lower(cfg.thresholds, level, other);
    assert StartSeen(cfg, h, 2, key, c) == Some(0);
    TriggersExactly(cfg, h, 2, key);
    assert ReadingOf(h, 1, "cpu");
    forall start | Ripe(cfg, h, start, 2, key)
      ensures !StaysAbove(cfg, h, start, 2, key)
    {
      assert !StartsAt(cfg, h, 1, key);
    }
  }
}
