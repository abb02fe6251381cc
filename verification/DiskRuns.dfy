/** What the disk streaks guarantee: about one evaluation, and over whole runs. */
module DiskRuns {
  import opened Wrappers
  import opened TtlStore
  import opened AlertThrottle
  import opened DiskAlerts

  // ---------------------------------------------------------------------------------------------
  // One evaluation
  // ---------------------------------------------------------------------------------------------

  // The entry of an applicable level after the evaluation.
  function LevelEntry(cfg: DiskConfig, tracks: Tracks, r: Reading, level: Level): Entry<Track> {
    var key := TrackKey(r.disk, level);
    if !Live(tracks, key, r.now) then Entry(Track(r.now, false), r.now + cfg.ttl)
    else if Fires(cfg, tracks, r, level) then Entry(Track(tracks[key].value.start, true), r.now + cfg.ttl)
    else tracks[key]
  }

  ghost predicate SameAt(a: Tracks, b: Tracks, key: TrackKey) {
    (key in a <==> key in b) && (key in a ==> a[key] == b[key])
  }

  ghost predicate Distinct(levels: seq<Level>) {
    forall i, j :: 0 <= i < j < |levels| ==> levels[i] != levels[j]
  }

  ghost predicate AllApply(cfg: DiskConfig, r: Reading, levels: seq<Level>) {
    forall level :: level in levels ==> r.util >= cfg.thresholds.Of(level)
  }

  lemma {:induction false} LevelsEffect(cfg: DiskConfig, s: DiskState, r: Reading, levels: seq<Level>, key: TrackKey)
    requires Distinct(levels) && AllApply(cfg, r, levels)
    ensures var tracks := ProcessLevels(cfg, s, r, levels).tracks;
            if key.disk == r.disk && key.level in levels
            then key in tracks && tracks[key] == LevelEntry(cfg, s.tracks, r, key.level)
            else SameAt(s.tracks, tracks, key)
  {
    if levels != [] {
      LevelsEffect(cfg, s, r, levels[..|levels| - 1], key);
      assert levels == levels[..|levels| - 1] + [levels[|levels| - 1]];
    }
  }

  lemma ApplicableIs(cfg: DiskConfig, util: real)
    ensures Distinct(Applicable(cfg, util, LEVELS))
    ensures forall level :: level in Applicable(cfg, util, LEVELS) <==> util >= cfg.thresholds.Of(level)
  {
    LevelsSplit(cfg, util);
  }

  lemma TrackEffect(cfg: DiskConfig, s: DiskState, r: Reading, key: TrackKey)
    ensures var tracks := Evaluate(cfg, s, r).tracks;
            if key.disk != r.disk then SameAt(s.tracks, tracks, key)
            else if r.util < cfg.thresholds.Of(key.level) then !Live(tracks, key, r.now)
            else key in tracks && tracks[key] == LevelEntry(cfg, s.tracks, r, key.level)
  {
    ApplicableIs(cfg, r.util);
    LevelsEffect(cfg, s, r, Applicable(cfg, r.util, LEVELS), key);
    assert key.disk == r.disk && r.util < cfg.thresholds.Of(key.level) ==> key in InactiveKeys(cfg, r);
  }

  // Main result: right after any evaluation the live tracks of the disk are the levels it reaches.
  lemma LiveTracksAreReachedLevels(cfg: DiskConfig, s: DiskState, r: Reading)
    requires cfg.ttl > 0
    ensures var tracks := Evaluate(cfg, s, r).tracks;
            && (forall level ::
                  Live(tracks, TrackKey(r.disk, level), r.now) <==> Reached(cfg.thresholds, r.util, level))
            && (forall key: TrackKey :: key.disk != r.disk ==> SameAt(s.tracks, tracks, key))
  {
    forall key: TrackKey ensures var tracks := Evaluate(cfg, s, r).tracks;
                       && (key.disk == r.disk ==>
                             (Live(tracks, key, r.now) <==> r.util >= cfg.thresholds.Of(key.level)))
                       && (key.disk != r.disk ==> SameAt(s.tracks, tracks, key))
    {
      TrackEffect(cfg, s, r, key);
    }
    assert forall level :: TrackKey(r.disk, level).level == level;
  }

  // How far apart the alert service reads its clock within one evaluation.
  ghost predicate SpreadBelow(r: Reading, seconds: int) {
    forall a, b :: r.sentAt(a) - r.sentAt(b) < seconds
  }

  lemma {:induction false} OneRowPerKey(cfg: DiskConfig, s: DiskState, r: Reading, levels: seq<Level>)
    requires SpreadBelow(r, 60 * cfg.service.throttleMinutes)
    ensures var s' := ProcessLevels(cfg, s, r, levels);
            && (s'.service == s.service
                || exists level :: s'.service == SentAt(cfg, s, r, level) && SentAt(cfg, s, r, level) != s.service)
  {
    if levels != [] {
      OneRowPerKey(cfg, s, r, levels[..|levels| - 1]);
      var last, before := levels[|levels| - 1], ProcessLevels(cfg, s, r, levels[..|levels| - 1]);
      assert ProcessLevel(cfg, before, r, last).service == before.service
             || ProcessLevel(cfg, before, r, last).service
                == Trigger(cfg.service, before.service, r.Request(), r.sentAt(last));
      if before.service == s.service {
        assert Trigger(cfg.service, s.service, r.Request(), r.sentAt(last)) == SentAt(cfg, s, r, last);
      }
    }
  }

  function SentAt(cfg: DiskConfig, s: DiskState, r: Reading, level: Level): State {
    Trigger(cfg.service, s.service, r.Request(), r.sentAt(level))
  }

  // Main result: however many levels mature together, an evaluation adds at most one alert row,
  // as long as its triggers lie closer together than the throttle.
  lemma AtMostOneAlert(cfg: DiskConfig, s: DiskState, r: Reading)
    requires SpreadBelow(r, 60 * cfg.service.throttleMinutes)
    ensures var rows := Evaluate(cfg, s, r).service.rows;
            rows == s.service.rows
            || exists level, key :: KeyOf(cfg.service, r.Request()) == Some(key)
                                    && rows == s.service.rows + [Row(key, r.sentAt(level))]
  {
    OneRowPerKey(cfg, s, r, Applicable(cfg, r.util, LEVELS));
  }

  lemma LevelsInOrder(cfg: DiskConfig, s: DiskState, r: Reading)
    ensures ProcessLevels(cfg, s, r, [Info, Warning, Critical])
            == ProcessLevel(cfg, ProcessLevel(cfg, ProcessLevel(cfg, s, r, Info), r, Warning), r, Critical)
  {
    assert [Info, Warning, Critical][..2] == [Info, Warning] && [Info, Warning][..1] == [Info] && [Info][..0] == [];
    assert ProcessLevels(cfg, s, r, [Info]) == ProcessLevel(cfg, s, r, Info);
  }

  lemma ThreeLevels(cfg: DiskConfig, s: DiskState, r: Reading)
    requires forall level :: r.util >= cfg.thresholds.Of(level)
    ensures Evaluate(cfg, s, r).service
            == ProcessLevel(cfg, ProcessLevel(cfg, ProcessLevel(cfg, s, r, Info), r, Warning), r, Critical).service
  {
    LevelsSplit(cfg, r.util);
    LevelsInOrder(cfg, s, r);
    assert r.util >= cfg.thresholds.Of(Info) && r.util >= cfg.thresholds.Of(Warning)
           && r.util >= cfg.thresholds.Of(Critical);
    assert Applicable(cfg, r.util, LEVELS) == [Info, Warning, Critical];
  }

  // ---------------------------------------------------------------------------------------------
  // Whole runs
  // ---------------------------------------------------------------------------------------------

  ghost predicate Chronological(h: seq<Reading>) {
    forall i, j :: 0 <= i < j < |h| ==> h[i].now <= h[j].now
  }

  // The state after the first n readings.
  function After(cfg: DiskConfig, h: seq<Reading>, n: nat): DiskState
    requires n <= |h|
  {
    if n == 0 then DiskState(map[], State(map[], [])) else Evaluate(cfg, After(cfg, h, n - 1), h[n - 1])
  }

  ghost predicate FiresAt(cfg: DiskConfig, h: seq<Reading>, i: nat, key: TrackKey) {
    i < |h| && h[i].disk == key.disk && Fires(cfg, After(cfg, h, i).tracks, h[i], key.level)
  }

  // --- One row per evaluation, over runs -----------------------------------------------------------

  // A disk above every threshold is read twice, a streak apart; in the second evaluation the later
  // triggers lag behind the first.
  function LateTriggers(cfg: DiskConfig, disk: string, util: real, lag: nat): seq<Reading> {
    var c := 60 * cfg.continuousMinutes;
    [Reading(0, disk, util, true, (level: Level) => 0),
     Reading(c, disk, util, true, (level: Level) => if level == Info then c else c + lag)]
  }

  lemma OpensThree(cfg: DiskConfig, disk: string, util: real, lag: nat)
    requires util >= cfg.thresholds.info && util >= cfg.thresholds.warning && util >= cfg.thresholds.critical
    ensures var s := After(cfg, LateTriggers(cfg, disk, util, lag), 1);
            && s.service == State(map[], [])
            && forall level :: TrackKey(disk, level) in s.tracks
                               && s.tracks[TrackKey(disk, level)] == Entry(Track(0, false), cfg.ttl)
  {
    var h := LateTriggers(cfg, disk, util, lag);
    assert After(cfg, h, 1) == Evaluate(cfg, After(cfg, h, 0), h[0]);
    ThreeLevels(cfg, After(cfg, h, 0), h[0]);
    forall level ensures TrackKey(disk, level) in After(cfg, h, 1).tracks
                         && After(cfg, h, 1).tracks[TrackKey(disk, level)] == Entry(Track(0, false), cfg.ttl)
    {
      TrackEffect(cfg, After(cfg, h, 0), h[0], TrackKey(disk, level));
    }
  }

  lemma FirstTwoLevelsFire(cfg: DiskConfig, s: DiskState, r: Reading)
    requires s.service == State(map[], []) && r.complete && r.util >= cfg.service.thresholds.critical
    requires r.sentAt(Warning) - r.sentAt(Info) >= 60 * cfg.service.throttleMinutes
    requires r.util >= cfg.thresholds.info && r.util >= cfg.thresholds.warning
    requires Fires(cfg, s.tracks, r, Info) && Fires(cfg, s.tracks, r, Warning)
    ensures |ProcessLevel(cfg, ProcessLevel(cfg, s, r, Info), r, Warning).service.rows| == 2
  {
    var key, at := AlertKey(Disk, r.disk, Critical), r.sentAt(Info);
    assert ProcessLevel(cfg, s, r, Info).service == State(map[key := at], [Row(key, at)]);
  }

  lemma WideSpreadDoubles(cfg: DiskConfig, disk: string, util: real, lag: nat)
    requires util >= cfg.thresholds.info && util >= cfg.thresholds.warning && util >= cfg.thresholds.critical
    requires util >= cfg.service.thresholds.critical
    requires 0 <= 60 * cfg.continuousMinutes < cfg.ttl && lag >= 60 * cfg.service.throttleMinutes
    ensures var h := LateTriggers(cfg, disk, util, lag);
            && Chronological(h) && SpreadBelow(h[0], lag + 1) && SpreadBelow(h[1], lag + 1)
            && |After(cfg, h, 2).service.rows| >= |After(cfg, h, 1).service.rows| + 2
  {
    var h := LateTriggers(cfg, disk, util, lag);
    var s := After(cfg, h, 1);
    OpensThree(cfg, disk, util, lag);
    ThreeLevels(cfg, s, h[1]);
    FirstTwoLevelsFire(cfg, s, h[1]);
    assert After(cfg, h, 2) == Evaluate(cfg, s, h[1]);
  }

  // No evaluation of any run adds a second row, as long as the clock readings of its triggers lie no
  // more than lag apart.
  ghost predicate OneRowEach(cfg: DiskConfig, lag: int) {
    forall h: seq<Reading>, n: nat ::
      Chronological(h) && n < |h| && (forall r :: r in h ==> SpreadBelow(r, lag + 1))
      ==> |After(cfg, h, n + 1).service.rows| <= |After(cfg, h, n).service.rows| + 1
  }

  // Main result: the condition is exact.
  lemma OneRowEachIff(cfg: DiskConfig, lag: nat)
    requires 0 <= 60 * cfg.continuousMinutes < cfg.ttl
    ensures OneRowEach(cfg, lag) <==> lag < 60 * cfg.service.throttleMinutes
  {
    if lag < 60 * cfg.service.throttleMinutes {
      forall h: seq<Reading>, n: nat |
        Chronological(h) && n < |h| && (forall r :: r in h ==> SpreadBelow(r, lag + 1))
        ensures |After(cfg, h, n + 1).service.rows| <= |After(cfg, h, n).service.rows| + 1
      {
        assert h[n] in h;
        AtMostOneAlert(cfg, After(cfg, h, n), h[n]);
      }
    } else {
      var top := Max(Max(cfg.thresholds.info, cfg.thresholds.warning),
                     Max(cfg.thresholds.critical, cfg.service.thresholds.critical));
      WideSpreadDoubles(cfg, "disk", top, lag);
      var h := LateTriggers(cfg, "disk", top, lag);
      assert forall r :: r in h ==> r == h[0] || r == h[1];
      assert |After(cfg, h, 1 + 1).service.rows| > |After(cfg, h, 1).service.rows| + 1;
    }
  }

  function Max(a: real, b: real): real {
    if a >= b then a else b
  }

  // --- The specification: no cache, only readings --------------------------------------------------

  // A streak of one level: the instants at which it started and, once it has, fired.
  datatype Streak = Streak(start: int, fired: Option<int>) {
    function Ends(ttl: int): int {
      (if fired.Some? then fired.value else start) + ttl
    }
  }

  predicate Due(cfg: DiskConfig, s: Streak, now: int) {
    s.fired.None? && now - s.start >= 60 * cfg.continuousMinutes
  }

  // The streak after a reading that reaches the level.
  function Continued(cfg: DiskConfig, seen: Option<Streak>, now: int): Streak {
    match seen
    case None => Streak(now, None)
    case Some(s) => if Due(cfg, s, now) then s.(fired := Some(now)) else s
  }

  // The streak that the first n readings leave open, seen at now.
  function StreakSeen(cfg: DiskConfig, h: seq<Reading>, n: nat, key: TrackKey, now: int): Option<Streak>
    requires n <= |h|
  {
    if n == 0 then None
    else
      var r := h[n - 1];
      if r.disk != key.disk then StreakSeen(cfg, h, n - 1, key, now)
      else if !Reached(cfg.thresholds, r.util, key.level) then None
      else
        var s := Continued(cfg, StreakSeen(cfg, h, n - 1, key, r.now), r.now);
        if now < s.Ends(cfg.ttl) then Some(s) else None
  }

  ghost predicate Reaches(cfg: DiskConfig, h: seq<Reading>, i: nat, key: TrackKey) {
    i < |h| && h[i].disk == key.disk && Reached(cfg.thresholds, h[i].util, key.level)
  }

  // The readings call for a fire at reading i.
  ghost predicate CalledAt(cfg: DiskConfig, h: seq<Reading>, i: nat, key: TrackKey) {
    && Reaches(cfg, h, i, key)
    && var seen := StreakSeen(cfg, h, i, key, h[i].now); seen.Some? && Due(cfg, seen.value, h[i].now)
  }

  // Reading i starts a new streak of the level.
  ghost predicate OpensAt(cfg: DiskConfig, h: seq<Reading>, i: nat, key: TrackKey) {
    Reaches(cfg, h, i, key) && StreakSeen(cfg, h, i, key, h[i].now) == None
  }

  // Every reading of the disk in [from, until) reaches the level.
  ghost predicate Sustained(cfg: DiskConfig, h: seq<Reading>, from: nat, until: nat, key: TrackKey) {
    forall i :: from <= i < until <= |h| && h[i].disk == key.disk ==> Reached(cfg.thresholds, h[i].util, key.level)
  }

  // No reading of the disk in (open, until) finds the streak old enough.
  ghost predicate Young(cfg: DiskConfig, h: seq<Reading>, open: nat, until: nat, key: TrackKey) {
    forall i :: open < i < until <= |h| && h[i].disk == key.disk
      ==> h[i].now - h[open].now < 60 * cfg.continuousMinutes
  }

  ghost predicate NoFire(cfg: DiskConfig, h: seq<Reading>, from: nat, until: nat, key: TrackKey) {
    forall i :: from <= i < until ==> !CalledAt(cfg, h, i, key)
  }

  // --- The cache refines it ------------------------------------------------------------------------

  lemma {:induction false} StreakRefined(cfg: DiskConfig, h: seq<Reading>, n: nat, key: TrackKey, now: int)
    requires n <= |h| && Chronological(h) && (n > 0 ==> h[n - 1].now <= now)
    ensures var tracks, seen := After(cfg, h, n).tracks, StreakSeen(cfg, h, n, key, now);
            && (Live(tracks, key, now) <==> seen.Some?)
            && (seen.Some? ==>
                  tracks[key] == Entry(Track(seen.value.start, seen.value.fired.Some?), seen.value.Ends(cfg.ttl)))
  {
    if n > 0 {
      TrackEffect(cfg, After(cfg, h, n - 1), h[n - 1], key);
      StreakRefined(cfg, h, n - 1, key, if h[n - 1].disk == key.disk then h[n - 1].now else now);
    }
  }

  // Main result: a level fires exactly when the readings call for it.
  lemma FiresExactly(cfg: DiskConfig, h: seq<Reading>, i: nat, key: TrackKey)
    requires Chronological(h)
    ensures FiresAt(cfg, h, i, key) <==> CalledAt(cfg, h, i, key)
  {
    if i < |h| {
      StreakRefined(cfg, h, i, key, h[i].now);
    }
  }

  // --- Streaks and fires ---------------------------------------------------------------------------

  // Streak s was opened by reading open and, once fired, fired by reading fire alone.
  ghost predicate Explains(
    cfg: DiskConfig, h: seq<Reading>, n: nat, key: TrackKey, s: Streak, open: nat, fire: nat)
  {
    && open < n <= |h| && OpensAt(cfg, h, open, key) && Sustained(cfg, h, open, n, key)
    && s.start == h[open].now
    && match s.fired
       case Some(at) =>
         && open < fire < n && CalledAt(cfg, h, fire, key) && at == h[fire].now
         && NoFire(cfg, h, open, fire, key) && NoFire(cfg, h, fire + 1, n, key)
       case None => Young(cfg, h, open, n, key) && NoFire(cfg, h, open, n, key)
  }

  lemma {:induction false} StreakExplained(cfg: DiskConfig, h: seq<Reading>, n: nat, key: TrackKey, now: int)
    returns (open: nat, fire: nat)
    requires n <= |h| && StreakSeen(cfg, h, n, key, now).Some?
    ensures Explains(cfg, h, n, key, StreakSeen(cfg, h, n, key, now).value, open, fire)
  {
    var r := h[n - 1];
    var seenAt := if r.disk == key.disk then r.now else now;
    var before := StreakSeen(cfg, h, n - 1, key, seenAt);
    if r.disk == key.disk && before.None? {
      open, fire := n - 1, 0;
    } else {
      open, fire := StreakExplained(cfg, h, n - 1, key, seenAt);
      if CalledAt(cfg, h, n - 1, key) {
        fire := n - 1;
      }
    }
  }

  lemma TrackExplained(cfg: DiskConfig, h: seq<Reading>, n: nat, key: TrackKey, now: int)
    returns (s: Streak, open: nat, fire: nat)
    requires n <= |h| && Chronological(h) && (n > 0 ==> h[n - 1].now <= now)
    requires Live(After(cfg, h, n).tracks, key, now)
    ensures After(cfg, h, n).tracks[key] == Entry(Track(s.start, s.fired.Some?), s.Ends(cfg.ttl))
    ensures Explains(cfg, h, n, key, s, open, fire)
  {
    StreakRefined(cfg, h, n, key, now);
    s := StreakSeen(cfg, h, n, key, now).value;
    open, fire := StreakExplained(cfg, h, n, key, now);
  }

  // Reading i is the first at which the streak opened by reading open, sustained ever since and not
  // expired, is old enough.
  ghost predicate Matures(cfg: DiskConfig, h: seq<Reading>, open: nat, i: nat, key: TrackKey) {
    && open < i < |h| && h[i].disk == key.disk
    && OpensAt(cfg, h, open, key) && Sustained(cfg, h, open, i + 1, key) && Young(cfg, h, open, i, key)
    && 60 * cfg.continuousMinutes <= h[i].now - h[open].now < cfg.ttl
  }

  lemma {:induction false} OpenStreakStays(
    cfg: DiskConfig, h: seq<Reading>, open: nat, n: nat, key: TrackKey, now: int)
    requires Chronological(h) && OpensAt(cfg, h, open, key) && open < n <= |h| && h[n - 1].now <= now
    requires Sustained(cfg, h, open, n, key) && Young(cfg, h, open, n, key) && now - h[open].now < cfg.ttl
    ensures StreakSeen(cfg, h, n, key, now) == Some(Streak(h[open].now, None))
  {
    if n - 1 > open {
      OpenStreakStays(cfg, h, open, n - 1, key, if h[n - 1].disk == key.disk then h[n - 1].now else now);
    }
  }

  // Main result: a level fires exactly at the first reading that finds a sustained streak old enough.
  lemma FiresIffMatures(cfg: DiskConfig, h: seq<Reading>, i: nat, key: TrackKey)
    requires Chronological(h)
    ensures FiresAt(cfg, h, i, key) <==> exists open :: Matures(cfg, h, open, i, key)
  {
    FiresExactly(cfg, h, i, key);
    if FiresAt(cfg, h, i, key) {
      var open := FiresOnSustainedBreach(cfg, h, i, key);
    }
    if open :| Matures(cfg, h, open, i, key) {
      SustainedBreachFires(cfg, h, open, i, key);
    }
  }

  lemma FiresOnSustainedBreach(cfg: DiskConfig, h: seq<Reading>, i: nat, key: TrackKey) returns (open: nat)
    requires Chronological(h) && FiresAt(cfg, h, i, key)
    ensures Matures(cfg, h, open, i, key) && NoFire(cfg, h, open, i, key)
  {
    FiresExactly(cfg, h, i, key);
    var fire: nat;
    open, fire := StreakExplained(cfg, h, i, key, h[i].now);
    SeenIsLive(cfg, h, i, key, h[i].now);
  }

  lemma {:induction false} SeenIsLive(cfg: DiskConfig, h: seq<Reading>, n: nat, key: TrackKey, now: int)
    requires n <= |h| && StreakSeen(cfg, h, n, key, now).Some?
    ensures now < StreakSeen(cfg, h, n, key, now).value.Ends(cfg.ttl)
  {
    if h[n - 1].disk != key.disk {
      SeenIsLive(cfg, h, n - 1, key, now);
    }
  }

  lemma SustainedBreachFires(cfg: DiskConfig, h: seq<Reading>, open: nat, i: nat, key: TrackKey)
    requires Chronological(h) && Matures(cfg, h, open, i, key)
    ensures FiresAt(cfg, h, i, key)
  {
    FiresExactly(cfg, h, i, key);
    OpenStreakStays(cfg, h, open, i, key, h[i].now);
  }

  // Main result: between two fires of one level a new streak opens, because the level was left or
  // the fired track expired; the two fires are therefore at least the streak length apart.
  lemma OneFirePerStreak(cfg: DiskConfig, h: seq<Reading>, i: nat, j: nat, key: TrackKey) returns (open: nat)
    requires Chronological(h) && i < j && FiresAt(cfg, h, i, key) && FiresAt(cfg, h, j, key)
    ensures i < open < j && OpensAt(cfg, h, open, key)
    ensures h[j].now - h[i].now >= h[j].now - h[open].now >= 60 * cfg.continuousMinutes
    ensures h[open].now - h[i].now >= cfg.ttl || !Sustained(cfg, h, i, open, key)
  {
    FiresExactly(cfg, h, i, key);
    open := FiresOnSustainedBreach(cfg, h, j, key);
    if h[open].now - h[i].now < cfg.ttl && Sustained(cfg, h, i, open, key) {
      FiredStreakStays(cfg, h, i, open, key, h[open].now);
    }
  }

  lemma {:induction false} FiredStreakStays(
    cfg: DiskConfig, h: seq<Reading>, i: nat, n: nat, key: TrackKey, now: int)
    requires Chronological(h) && CalledAt(cfg, h, i, key) && i < n <= |h| && h[n - 1].now <= now
    requires Sustained(cfg, h, i, n, key) && now - h[i].now < cfg.ttl
    ensures var seen := StreakSeen(cfg, h, n, key, now); seen.Some? && seen.value.fired == Some(h[i].now)
  {
    if n - 1 > i {
      FiredStreakStays(cfg, h, i, n - 1, key, if h[n - 1].disk == key.disk then h[n - 1].now else now);
    }
  }

  // ---------------------------------------------------------------------------------------------
  // The alerts behind the fires
  // ---------------------------------------------------------------------------------------------

  // The service after the fires of the given levels, each of which asks once.
  function Asked(cfg: DiskConfig, s: DiskState, r: Reading, levels: seq<Level>): State {
    if levels == [] then s.service
    else
      var last, before := levels[|levels| - 1], Asked(cfg, s, r, levels[..|levels| - 1]);
      if Fires(cfg, s.tracks, r, last)
      then Trigger(cfg.service, before, AlertThrottle.Request(Disk, r.disk, r.util, r.complete), r.sentAt(last))
      else before
  }

  lemma {:induction false} LevelsAsk(cfg: DiskConfig, s: DiskState, r: Reading, levels: seq<Level>)
    requires Distinct(levels) && AllApply(cfg, r, levels)
    ensures ProcessLevels(cfg, s, r, levels).service == Asked(cfg, s, r, levels)
  {
    if levels != [] {
      var last, before := levels[|levels| - 1], levels[..|levels| - 1];
      LevelsAsk(cfg, s, r, before);
      LevelsEffect(cfg, s, r, before, TrackKey(r.disk, last));
      assert levels == before + [last];
    }
  }

  lemma {:induction false} OnlyApplicableAsk(cfg: DiskConfig, s: DiskState, r: Reading, levels: seq<Level>)
    ensures Asked(cfg, s, r, Applicable(cfg, r.util, levels)) == Asked(cfg, s, r, levels)
  {
    if levels != [] {
      var last, before := levels[|levels| - 1], levels[..|levels| - 1];
      OnlyApplicableAsk(cfg, s, r, before);
      var rest := Applicable(cfg, r.util, before);
      assert (rest + [last])[..|rest|] == rest;
    }
  }

  lemma EvaluationAsks(cfg: DiskConfig, s: DiskState, r: Reading)
    ensures Evaluate(cfg, s, r).service == Asked(cfg, s, r, LEVELS)
  {
    ApplicableIs(cfg, r.util);
    LevelsAsk(cfg, s, r, Applicable(cfg, r.util, LEVELS));
    OnlyApplicableAsk(cfg, s, r, LEVELS);
  }

  // The same, as the readings call for it: the service after the given levels of reading n.
  ghost function Called(cfg: DiskConfig, h: seq<Reading>, n: nat, service: State, level: Level): State
    requires n < |h|
  {
    if CalledAt(cfg, h, n, TrackKey(h[n].disk, level))
    then Trigger(cfg.service, service, AlertThrottle.Request(Disk, h[n].disk, h[n].util, h[n].complete),
                 h[n].sentAt(level))
    else service
  }

  ghost function AllCalled(cfg: DiskConfig, h: seq<Reading>, n: nat, service: State): State
    requires n < |h|
  {
    Called(cfg, h, n, Called(cfg, h, n, Called(cfg, h, n, service, Info), Warning), Critical)
  }

  // Main result: in every run each level that the readings call for asks the alert service once, in the
  // order of the levels, and nothing else does.
  lemma FiresAsk(cfg: DiskConfig, h: seq<Reading>, n: nat)
    requires Chronological(h) && n < |h|
    ensures After(cfg, h, n + 1).service == AllCalled(cfg, h, n, After(cfg, h, n).service)
  {
    var s, r := After(cfg, h, n), h[n];
    EvaluationAsks(cfg, s, r);
    forall level ensures Fires(cfg, s.tracks, r, level) <==> CalledAt(cfg, h, n, TrackKey(r.disk, level)) {
      FiresExactly(cfg, h, n, TrackKey(r.disk, level));
    }
    assert LEVELS[..2] == [Info, Warning] && LEVELS[..2][..1] == [Info] && LEVELS[..2][..1][..0] == [];
    assert Asked(cfg, s, r, [Info]) == Called(cfg, h, n, s.service, Info);
    assert Asked(cfg, s, r, [Info, Warning]) == Called(cfg, h, n, Asked(cfg, s, r, [Info]), Warning);
  }

  lemma {:induction false} RowsKept(cfg: DiskConfig, h: seq<Reading>, n: nat)
    requires Chronological(h) && n <= |h| && cfg.service.throttleMinutes >= 0
    ensures Latest(After(cfg, h, n).service)
  {
    if n > 0 {
      RowsKept(cfg, h, n - 1);
      AllCalledKept(cfg, h, n - 1, After(cfg, h, n - 1).service);
      FiresAsk(cfg, h, n - 1);
      assert After(cfg, h, n).service == AllCalled(cfg, h, n - 1, After(cfg, h, n - 1).service);
    }
  }

  lemma AllCalledKept(cfg: DiskConfig, h: seq<Reading>, n: nat, service: State)
    requires n < |h| && Latest(service) && cfg.service.throttleMinutes >= 0
    ensures Latest(AllCalled(cfg, h, n, service))
  {
    var s1 := Called(cfg, h, n, service, Info);
    CalledKept(cfg, h, n, service, Info);
    CalledKept(cfg, h, n, s1, Warning);
    CalledKept(cfg, h, n, Called(cfg, h, n, s1, Warning), Critical);
  }

  lemma CalledKept(cfg: DiskConfig, h: seq<Reading>, n: nat, service: State, level: Level)
    requires n < |h| && Latest(service) && cfg.service.throttleMinutes >= 0
    ensures Latest(Called(cfg, h, n, service, level))
  {
    CalledExactly(cfg, h, n, service, level);
  }

  lemma CalledExactly(cfg: DiskConfig, h: seq<Reading>, n: nat, service: State, level: Level)
    requires n < |h| && Latest(service) && cfg.service.throttleMinutes >= 0
    ensures Latest(Called(cfg, h, n, service, level))
    ensures var req, rows := AlertThrottle.Request(Disk, h[n].disk, h[n].util, h[n].complete),
                             Called(cfg, h, n, service, level).rows;
            && service.rows <= rows
            && (CalledAt(cfg, h, n, TrackKey(h[n].disk, level)) ==>
                  RowAdded(cfg.service, service.rows, req, h[n].sentAt(level), rows))
  {
    TriggerExactly(cfg.service, service, AlertThrottle.Request(Disk, h[n].disk, h[n].util, h[n].complete),
                   h[n].sentAt(level));
  }

  // A row of the key that stands for a fire at the given instant: made for it, or younger than the throttle.
  ghost predicate Stands(cfg: DiskConfig, rows: seq<Row>, key: AlertKey, at: int) {
    exists row :: row in rows && row.key == key
                  && (row.createdAt == at || at - row.createdAt < 60 * cfg.service.throttleMinutes)
  }

  // Main result: no fire is lost: after it, a row of the disk's present severity stands for it.
  lemma FireHasRow(cfg: DiskConfig, h: seq<Reading>, n: nat, level: Level, key: AlertKey)
    requires Chronological(h) && cfg.service.throttleMinutes >= 0
    requires FiresAt(cfg, h, n, TrackKey(key.uuid, level))
    requires AsksFor(cfg.service, AlertThrottle.Request(Disk, h[n].disk, h[n].util, h[n].complete), key)
    ensures Stands(cfg, After(cfg, h, n + 1).service.rows, key, h[n].sentAt(level))
  {
    FiresExactly(cfg, h, n, TrackKey(key.uuid, level));
    FiresAsk(cfg, h, n);
    RowsKept(cfg, h, n);
    var s0 := After(cfg, h, n).service;
    var s1 := Called(cfg, h, n, s0, Info);
    var s2 := Called(cfg, h, n, s1, Warning);
    var s3 := Called(cfg, h, n, s2, Critical);
    CalledExactly(cfg, h, n, s0, Info);
    CalledExactly(cfg, h, n, s1, Warning);
    CalledExactly(cfg, h, n, s2, Critical);
    var before := match level case Info => s0 case Warning => s1 case Critical => s2;
    var after := match level case Info => s1 case Warning => s2 case Critical => s3;
    CalledStands(cfg, before.rows, after.rows, h[n], level, key);
    assert after.rows <= s3.rows;
  }

  lemma CalledStands(cfg: DiskConfig, rows: seq<Row>, rows': seq<Row>, r: Reading, level: Level, key: AlertKey)
    requires AsksFor(cfg.service, AlertThrottle.Request(Disk, r.disk, r.util, r.complete), key)
    requires RowAdded(cfg.service, rows, AlertThrottle.Request(Disk, r.disk, r.util, r.complete),
                      r.sentAt(level), rows')
    ensures Stands(cfg, rows', key, r.sentAt(level))
  {
    if AllOld(cfg.service, rows, key, r.sentAt(level)) {
      assert rows'[|rows|] == Row(key, r.sentAt(level));
    } else {
      var row :| row in rows && row.key == key && r.sentAt(level) - row.createdAt < 60 * cfg.service.throttleMinutes;
      assert row in rows';
    }
  }

  // And without a fire there is no new row.
  lemma NoFireNoRow(cfg: DiskConfig, h: seq<Reading>, n: nat)
    requires Chronological(h) && n < |h| && forall level :: !FiresAt(cfg, h, n, TrackKey(h[n].disk, level))
    ensures After(cfg, h, n + 1).service == After(cfg, h, n).service
  {
    FiresAsk(cfg, h, n);
    forall level ensures !CalledAt(cfg, h, n, TrackKey(h[n].disk, level)) {
      FiresExactly(cfg, h, n, TrackKey(h[n].disk, level));
    }
  }
}
