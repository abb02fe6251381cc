/** The duration-based level streaks of a disk (diskservice.py) and the alerts they raise. */
module DiskAlerts {
  import opened TtlStore
  import opened AlertThrottle

  datatype TrackKey = TrackKey(disk: string, level: Level)

  datatype Track = Track(start: int, fired: bool)

  type Tracks = map<TrackKey, Entry<Track>>

  datatype DiskConfig = DiskConfig(thresholds: Thresholds, continuousMinutes: int, ttl: int, service: Config)

  // sentAt gives the alert service's own clock at the trigger of each level; now is the clock the
  // evaluation reads once at its start.
  datatype Reading = Reading(now: int, disk: string, util: real, complete: bool, sentAt: Level -> int) {
    function Request(): Request {
      AlertThrottle.Request(Disk, disk, util, complete)
    }
  }

  datatype DiskState = DiskState(tracks: Tracks, service: State)

  predicate Fires(cfg: DiskConfig, tracks: Tracks, r: Reading, level: Level) {
    var key := TrackKey(r.disk, level);
    && r.util >= cfg.thresholds.Of(level)
    && Live(tracks, key, r.now)
    && !tracks[key].value.fired
    && r.now - tracks[key].value.start >= 60 * cfg.continuousMinutes
  }

  function ProcessLevel(cfg: DiskConfig, s: DiskState, r: Reading, level: Level): DiskState {
    var key := TrackKey(r.disk, level);
    if !Live(s.tracks, key, r.now) then
      s.(tracks := s.tracks[key := Entry(Track(r.now, false), r.now + cfg.ttl)])
    else if s.tracks[key].value.fired || r.now - s.tracks[key].value.start < 60 * cfg.continuousMinutes then s
    else DiskState(s.tracks[key := Entry(Track(s.tracks[key].value.start, true), r.now + cfg.ttl)],
                   Trigger(cfg.service, s.service, r.Request(), r.sentAt(level)))
  }

  function ProcessLevels(cfg: DiskConfig, s: DiskState, r: Reading, levels: seq<Level>): DiskState {
    if levels == [] then s
    else ProcessLevel(cfg, ProcessLevels(cfg, s, r, levels[..|levels| - 1]), r, levels[|levels| - 1])
  }

  function Applicable(cfg: DiskConfig, util: real, levels: seq<Level>): seq<Level> {
    if levels == [] then []
    else
      var last, rest := levels[|levels| - 1], Applicable(cfg, util, levels[..|levels| - 1]);
      if util >= cfg.thresholds.Of(last) then rest + [last] else rest
  }

  function InactiveKeys(cfg: DiskConfig, r: Reading): set<TrackKey> {
    set level: Level | r.util < cfg.thresholds.Of(level) :: TrackKey(r.disk, level)
  }

  function LiveKeys(tracks: Tracks, keys: set<TrackKey>, now: int): set<TrackKey> {
    set key <- keys | Live(tracks, key, now)
  }

  function Evaluate(cfg: DiskConfig, s: DiskState, r: Reading): DiskState {
    var applicable := Applicable(cfg, r.util, LEVELS);
    if applicable == [] then s.(tracks := s.tracks - InactiveKeys(cfg, r))
    else
      var s' := ProcessLevels(cfg, s, r, applicable);
      s'.(tracks := s'.tracks - LiveKeys(s'.tracks, InactiveKeys(cfg, r), r.now))
  }

  class Evaluator {
    const cfg: DiskConfig
    const cache: Store<TrackKey, Track>
    const service: Service

    constructor (cfg: DiskConfig, cache: Store<TrackKey, Track>, service: Service)
      requires service.cfg == cfg.service
      ensures this.cfg == cfg && this.cache == cache && this.service == service
    {
      this.cfg, this.cache, this.service := cfg, cache, service;
    }

    ghost predicate Valid() {
      service.cfg == cfg.service
    }

    ghost function View(): DiskState
      reads cache, service
    {
      DiskState(cache.entries, service.View())
    }

    method EvaluateDiskAlerts(r: Reading)
      requires Valid()
      modifies cache, service
      ensures View() == Evaluate(cfg, old(View()), r)
    {
      var applicable := Applicable(cfg, r.util, LEVELS);
      if applicable == [] {
        NoneApplicable(cfg, r.util);
        ClearAllLevels(r);
        return;
      }
      ProcessApplicable(r, applicable);
      ClearInactiveLevels(r);
    }

    method ProcessApplicable(r: Reading, applicable: seq<Level>)
      requires Valid()
      modifies cache, service
      ensures View() == ProcessLevels(cfg, old(View()), r, applicable)
    {
      for i := 0 to |applicable|
        invariant View() == ProcessLevels(cfg, old(View()), r, applicable[..i])
      {
        assert applicable[..i + 1][..i] == applicable[..i];
        ProcessLevelStreak(r, applicable[i]);
      }
      assert applicable[..|applicable|] == applicable;
    }

    method ProcessLevelStreak(r: Reading, level: Level)
      requires Valid()
      modifies cache, service
      ensures View() == ProcessLevel(cfg, old(View()), r, level)
    {
      var key := TrackKey(r.disk, level);
      var track := cache.Get(key, r.now);
      if track.None? {
        cache.SetWithTtl(key, Track(r.now, false), cfg.ttl, r.now);
        return;
      }
      if track.value.fired {
        return;
      }
      if r.now - track.value.start < 60 * cfg.continuousMinutes {
        return;
      }
      service.TriggerUtilizationAlert(r.Request(), r.sentAt(level));
      cache.SetWithTtl(key, track.value.(fired := true), cfg.ttl, r.now);
    }

    method ClearInactiveLevels(r: Reading)
      modifies cache
      ensures cache.entries
              == old(cache.entries) - LiveKeys(old(cache.entries), InactiveKeys(cfg, r), r.now)
    {
      for i := 0 to |LEVELS|
        invariant cache.entries
                  == old(cache.entries) - (set key <- LiveKeys(old(cache.entries), InactiveKeys(cfg, r), r.now)
                                               | key.level in LEVELS[..i])
      {
        if r.util < cfg.thresholds.Of(LEVELS[i]) {
          var key := TrackKey(r.disk, LEVELS[i]);
          var live := cache.Exists(key, r.now);
          if live {
            cache.Delete(key);
          }
        }
      }
      AllLevels();
    }

    method ClearAllLevels(r: Reading)
      requires forall level :: r.util < cfg.thresholds.Of(level)
      modifies cache
      ensures cache.entries == old(cache.entries) - InactiveKeys(cfg, r)
    {
      for i := 0 to |LEVELS|
        invariant cache.entries == old(cache.entries) - (set key <- InactiveKeys(cfg, r) | key.level in LEVELS[..i])
      {
        cache.Delete(TrackKey(r.disk, LEVELS[i]));
      }
      AllLevels();
    }
  }

  function If(keep: bool, level: Level): seq<Level> {
    if keep then [level] else []
  }

  lemma ApplicableAppend(cfg: DiskConfig, util: real, levels: seq<Level>, level: Level)
    ensures Applicable(cfg, util, levels + [level])
            == Applicable(cfg, util, levels) + If(util >= cfg.thresholds.Of(level), level)
  {
    assert (levels + [level])[..|levels|] == levels;
  }

  // The applicable levels, level by level.
  lemma LevelsSplit(cfg: DiskConfig, util: real)
    ensures Applicable(cfg, util, LEVELS)
            == If(util >= cfg.thresholds.info, Info) + If(util >= cfg.thresholds.warning, Warning)
               + If(util >= cfg.thresholds.critical, Critical)
  {
    ApplicableAppend(cfg, util, [], Info);
    ApplicableAppend(cfg, util, [Info], Warning);
    ApplicableAppend(cfg, util, [Info, Warning], Critical);
    assert [] + [Info] == [Info] && [Info] + [Warning] == [Info, Warning] && [Info, Warning] + [Critical] == LEVELS;
  }

  lemma NoneApplicable(cfg: DiskConfig, util: real)
    requires Applicable(cfg, util, LEVELS) == []
    ensures forall level :: util < cfg.thresholds.Of(level)
  {
    LevelsSplit(cfg, util);
    forall level ensures util < cfg.thresholds.Of(level) {
      match level case Info => case Warning => case Critical =>
    }
  }
}
