/** The duration-based level streaks of a CPU (cpuservice.py) and the alerts they raise. */
module CpuAlerts {
  import opened Wrappers
  import opened TtlStore
  import opened AlertThrottle

  datatype TrackKey = TrackKey(cpu: string, level: Level)

  // The start instant of each streak.
  type Tracks = map<TrackKey, Entry<int>>

  datatype CpuConfig = CpuConfig(thresholds: Thresholds, continuousMinutes: int, ttl: int, service: Config)

  // now is the clock the evaluation reads at its start, sentAt the alert service's own clock at the
  // trigger, if there is one.
  datatype Reading = Reading(now: int, cpu: string, util: real, complete: bool, sentAt: int) {
    function Request(): Request {
      AlertThrottle.Request(Cpu, cpu, util, complete)
    }
  }

  datatype CpuState = CpuState(tracks: Tracks, service: State)

  // The highest level reached; below Info there is none.
  function LevelOf(thresholds: Thresholds, util: real): Option<Level> {
    if util >= thresholds.critical then Some(Critical)
    else if util >= thresholds.warning then Some(Warning)
    else if util >= thresholds.info then Some(Info)
    else None
  }

  predicate Triggers(cfg: CpuConfig, tracks: Tracks, r: Reading, level: Level) {
    var key := TrackKey(r.cpu, level);
    && LevelOf(cfg.thresholds, r.util) == Some(level)
    && Live(tracks, key, r.now)
    && r.now - tracks[key].value >= 60 * cfg.continuousMinutes
  }

  function LowerKeys(cfg: CpuConfig, cpu: string, fired: Level): set<TrackKey> {
    set level: Level | cfg.thresholds.Of(level) < cfg.thresholds.Of(fired) :: TrackKey(cpu, level)
  }

  function AllKeys(cpu: string): set<TrackKey> {
    set level: Level :: TrackKey(cpu, level)
  }

  function Evaluate(cfg: CpuConfig, s: CpuState, r: Reading): CpuState {
    match LevelOf(cfg.thresholds, r.util)
    case None => s.(tracks := s.tracks - AllKeys(r.cpu))
    case Some(level) =>
      var key := TrackKey(r.cpu, level);
      if !Live(s.tracks, key, r.now) then s.(tracks := s.tracks[key := Entry(r.now, r.now + cfg.ttl)])
      else if !Triggers(cfg, s.tracks, r, level) then s
      else CpuState(s.tracks[key := Entry(r.now, r.now + cfg.ttl)] - LowerKeys(cfg, r.cpu, level),
                    Trigger(cfg.service, s.service, r.Request(), r.sentAt))
  }

  class Evaluator {
    const cfg: CpuConfig
    const cache: Store<TrackKey, int>
    const service: Service

    constructor (cfg: CpuConfig, cache: Store<TrackKey, int>, service: Service)
      requires service.cfg == cfg.service
      ensures this.cfg == cfg && this.cache == cache && this.service == service && Valid()
    {
      this.cfg, this.cache, this.service := cfg, cache, service;
    }

    ghost predicate Valid() {
      service.cfg == cfg.service
    }

    ghost function View(): CpuState
      reads cache, service
    {
      CpuState(cache.entries, service.View())
    }

    method EvaluateAlerts(r: Reading)
      requires Valid()
      modifies cache, service
      ensures View() == Evaluate(cfg, old(View()), r)
    {
      var level: Level;
      if r.util >= cfg.thresholds.critical {
        level := Critical;
      } else if r.util >= cfg.thresholds.warning {
        level := Warning;
      } else if r.util >= cfg.thresholds.info {
        level := Info;
      } else {
        ClearAllLevels(r.cpu);
        return;
      }
      var key := TrackKey(r.cpu, level);
      var start := cache.Get(key, r.now);
      if start.None? {
        cache.SetWithTtl(key, r.now, cfg.ttl, r.now);
        return;
      }
      if r.now - start.value < 60 * cfg.continuousMinutes {
        return;
      }
      service.TriggerUtilizationAlert(r.Request(), r.sentAt);
      cache.SetWithTtl(key, r.now, cfg.ttl, r.now);
      ClearLowerLevels(r.cpu, level);
    }

    method ClearLowerLevels(cpu: string, fired: Level)
      modifies cache
      ensures cache.entries == old(cache.entries) - LowerKeys(cfg, cpu, fired)
    {
      for i := 0 to |LEVELS|
        invariant cache.entries
                  == old(cache.entries) - (set key <- LowerKeys(cfg, cpu, fired) | key.level in LEVELS[..i])
      {
        if cfg.thresholds.Of(LEVELS[i]) < cfg.thresholds.Of(fired) {
          cache.Delete(TrackKey(cpu, LEVELS[i]));
        }
      }
      AllLevels();
    }

    method ClearAllLevels(cpu: string)
      modifies cache
      ensures cache.entries == old(cache.entries) - AllKeys(cpu)
    {
      for i := 0 to |LEVELS|
        invariant cache.entries == old(cache.entries) - (set key <- AllKeys(cpu) | key.level in LEVELS[..i])
      {
        cache.Delete(TrackKey(cpu, LEVELS[i]));
      }
      AllLevels();
    }
  }
}
