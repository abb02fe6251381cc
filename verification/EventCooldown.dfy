/** The per-connection event cooldown with its size-triggered clean-up (consumer.py). */
module EventCooldown {
  datatype Config = Config(cooldown: int, multiplier: int, maxSize: nat)

  // Three event types are sent once per session; the others are subject to the time-based cooldown.
  datatype Kind = MonData | Connect | Disconnect | Timed(key: string)

  // active: whether there is an agent and a live connection.  made: whether the event service does create
  // an event when it is asked to.
  datatype Request = Request(time: int, kind: Kind, active: bool, made: bool)

  datatype State = State(sent: set<Kind>, cache: map<string, int>)

  // A recorded instant of zero counts as none.
  predicate Cooling(cfg: Config, cache: map<string, int>, key: string, now: int) {
    key in cache && cache[key] != 0 && now - cache[key] < cfg.cooldown
  }

  function CleanUp(cfg: Config, cache: map<string, int>, now: int): map<string, int> {
    if |cache| > cfg.maxSize
    then map key | key in cache && cache[key] > now - cfg.cooldown * cfg.multiplier :: cache[key]
    else cache
  }

  predicate Asks(cfg: Config, s: State, r: Request) {
    r.active && (if r.kind.Timed? then !Cooling(cfg, s.cache, r.kind.key, r.time) else r.kind !in s.sent)
  }

  function Step(cfg: Config, s: State, r: Request): State {
    if !Asks(cfg, s, r) || !r.made then s
    else if !r.kind.Timed? then s.(sent := s.sent + {r.kind})
    else s.(cache := CleanUp(cfg, s.cache[r.kind.key := r.time], r.time))
  }

  class Consumer {
    const cfg: Config
    var sent: set<Kind>
    var cache: map<string, int>

    constructor (cfg: Config)
      ensures this.cfg == cfg && View() == State({}, map[])
    {
      this.cfg := cfg;
      sent, cache := {}, map[];
    }

    ghost function View(): State
      reads this
    {
      State(sent, cache)
    }

    method CreateEventWithCooldown(r: Request) returns (asked: bool, created: bool)
      modifies this
      ensures View() == Step(cfg, old(View()), r)
      ensures asked == Asks(cfg, old(View()), r) && created == (asked && r.made)
    {
      if !r.active {
        return false, false;
      }
      if !r.kind.Timed? {
        if r.kind in sent {
          return false, false;
        }
        if r.made {
          sent := sent + {r.kind};
        }
        return true, r.made;
      }
      if r.kind.key in cache {
        var last := cache[r.kind.key];
        if last != 0 && r.time - last < cfg.cooldown {
          return false, false;
        }
      }
      if r.made {
        cache := cache[r.kind.key := r.time];
        if |cache| > cfg.maxSize {
          var cutoff := r.time - cfg.cooldown * cfg.multiplier;
          cache := map key | key in cache && cache[key] > cutoff :: cache[key];
        }
      }
      return true, r.made;
    }
  }

  // ---------------------------------------------------------------------------------------------
  // Whole runs
  // ---------------------------------------------------------------------------------------------

  ghost predicate Chronological(h: seq<Request>) {
    && (forall i, j :: 0 <= i < j < |h| ==> h[i].time <= h[j].time)
    && (forall i :: 0 <= i < |h| ==> 0 < h[i].time)
  }

  function Run(cfg: Config, h: seq<Request>): State {
    if h == [] then State({}, map[]) else Step(cfg, Run(cfg, h[..|h| - 1]), h[|h| - 1])
  }

  // The same engine with a cache that is never cleaned up.
  function PlainStep(cfg: Config, s: State, r: Request): State {
    if !Asks(cfg, s, r) || !r.made then s
    else if !r.kind.Timed? then s.(sent := s.sent + {r.kind})
    else s.(cache := s.cache[r.kind.key := r.time])
  }

  function PlainRun(cfg: Config, h: seq<Request>): State {
    if h == [] then State({}, map[]) else PlainStep(cfg, PlainRun(cfg, h[..|h| - 1]), h[|h| - 1])
  }

  ghost predicate OnlyOldMissing(cfg: Config, s: State, plain: State, now: int) {
    && s.sent == plain.sent
    && (forall key :: key in s.cache ==> key in plain.cache && s.cache[key] == plain.cache[key])
    && (forall key :: key in plain.cache ==> plain.cache[key] <= now)
    && (forall key :: key in plain.cache && key !in s.cache ==> now - plain.cache[key] >= cfg.cooldown)
  }

  lemma CleanUpDropsOld(cfg: Config)
    requires cfg.cooldown <= 0 || cfg.multiplier >= 1
    ensures cfg.cooldown <= 0 || cfg.cooldown * cfg.multiplier >= cfg.cooldown
  {
    if cfg.cooldown > 0 {
      assert cfg.cooldown * (cfg.multiplier - 1) >= 0;
    }
  }

  lemma StepOnlyDropsOld(cfg: Config, s: State, plain: State, r: Request)
    requires OnlyOldMissing(cfg, s, plain, r.time) && 0 < r.time
    requires cfg.cooldown <= 0 || cfg.multiplier >= 1
    ensures OnlyOldMissing(cfg, Step(cfg, s, r), PlainStep(cfg, plain, r), r.time)
  {
    CleanUpDropsOld(cfg);
    if r.kind.Timed? && r.made && Asks(cfg, s, r) {
      var kept := s.cache[r.kind.key := r.time];
      assert forall key :: key in kept && key !in CleanUp(cfg, kept, r.time) ==> r.time - kept[key] >= cfg.cooldown;
    }
  }

  lemma {:induction false} CleaningOnlyDropsOld(cfg: Config, h: seq<Request>, now: int)
    requires Chronological(h) && (h != [] ==> h[|h| - 1].time <= now)
    requires cfg.cooldown <= 0 || cfg.multiplier >= 1
    ensures OnlyOldMissing(cfg, Run(cfg, h), PlainRun(cfg, h), now)
  {
    if h != [] {
      var before, last := h[..|h| - 1], h[|h| - 1];
      CleaningOnlyDropsOld(cfg, before, last.time);
      StepOnlyDropsOld(cfg, Run(cfg, before), PlainRun(cfg, before), last);
    }
  }

  ghost predicate CleaningInvisible(cfg: Config) {
    forall h, r: Request :: Chronological(h + [r]) ==> Asks(cfg, Run(cfg, h), r) == Asks(cfg, PlainRun(cfg, h), r)
  }

  // Main result: the cleaned-up cache decides as one that keeps everything, exactly when the clean-up
  // multiplier is at least one (or the cooldown suppresses nothing).
  lemma CleaningInvisibleIff(cfg: Config)
    ensures CleaningInvisible(cfg) <==> cfg.cooldown <= 0 || cfg.multiplier >= 1
  {
    if cfg.cooldown <= 0 || cfg.multiplier >= 1 {
      forall h, r: Request | Chronological(h + [r])
        ensures Asks(cfg, Run(cfg, h), r) == Asks(cfg, PlainRun(cfg, h), r)
      {
        assert (h + [r])[|h|] == r && forall i :: 0 <= i < |h| ==> (h + [r])[i] == h[i];
        CleaningOnlyDropsOld(cfg, h, r.time);
      }
    } else {
      var h := FloodIsForgotten(cfg);
      var r := Request(1, Timed(Name(cfg.maxSize)), true, true);
      assert forall i :: 0 <= i < |h + [r]| ==> (h + [r])[i].time == 1;
      assert Asks(cfg, Run(cfg, h), r) && !Asks(cfg, PlainRun(cfg, h), r);
    }
  }

  function Name(i: nat): string {
    seq(i, _ => 'x')
  }

  lemma RunAppend(cfg: Config, h: seq<Request>, r: Request)
    ensures Run(cfg, h + [r]) == Step(cfg, Run(cfg, h), r)
    ensures PlainRun(cfg, h + [r]) == PlainStep(cfg, PlainRun(cfg, h), r)
  {
    assert (h + [r])[..|h + [r]| - 1] == h;
  }

  // n requests at time 1 with n different keys, before any clean-up.
  lemma {:induction false} Flood(cfg: Config, n: nat) returns (h: seq<Request>)
    requires n <= cfg.maxSize
    ensures forall i :: 0 <= i < |h| ==> h[i].time == 1
    ensures Run(cfg, h) == PlainRun(cfg, h) && |Run(cfg, h).cache| == n
    ensures forall key :: key in Run(cfg, h).cache ==> |key| < n && Run(cfg, h).cache[key] == 1
  {
    h := [];
    if n > 0 {
      var before := Flood(cfg, n - 1);
      var last := Request(1, Timed(Name(n - 1)), true, true);
      RunAppend(cfg, before, last);
      h := before + [last];
    }
  }

  // One more of them triggers a clean-up that forgets them all.
  lemma FloodIsForgotten(cfg: Config) returns (h: seq<Request>)
    requires cfg.cooldown > 0 && cfg.multiplier < 1
    ensures forall i :: 0 <= i < |h| ==> h[i].time == 1
    ensures Run(cfg, h).cache == map[]
    ensures var key, plain := Name(cfg.maxSize), PlainRun(cfg, h).cache; key in plain && plain[key] == 1
  {
    var before := Flood(cfg, cfg.maxSize);
    var last := Request(1, Timed(Name(cfg.maxSize)), true, true);
    RunAppend(cfg, before, last);
    h := before + [last];
    ClearedAtOnce(cfg, Run(cfg, before).cache[Name(cfg.maxSize) := 1]);
  }

  lemma ClearedAtOnce(cfg: Config, cache: map<string, int>)
    requires cfg.cooldown > 0 && cfg.multiplier < 1 && |cache| > cfg.maxSize
    requires forall key :: key in cache ==> cache[key] == 1
    ensures CleanUp(cfg, cache, 1) == map[]
  {
    assert cfg.cooldown * cfg.multiplier <= 0;
  }

  // Requests that the cooldown lets through, and that do create an event, are spaced per key.
  lemma {:induction false} CreatedEventsSpaced(cfg: Config, h: seq<Request>, key: string, i: nat, j: nat)
    requires Chronological(h) && (cfg.cooldown <= 0 || cfg.multiplier >= 1) && i < j < |h|
    requires h[i].kind == h[j].kind == Timed(key) && h[i].made
    requires Asks(cfg, Run(cfg, h[..i]), h[i]) && Asks(cfg, Run(cfg, h[..j]), h[j])
    ensures h[i].time + cfg.cooldown <= h[j].time
  {
    if cfg.cooldown > 0 {
      CleaningOnlyDropsOld(cfg, h[..i], h[i].time);
      CleaningOnlyDropsOld(cfg, h[..j], h[j].time);
      LastIsRemembered(cfg, h, key, i, j);
    }
  }

  lemma {:induction false} LastIsRemembered(cfg: Config, h: seq<Request>, key: string, i: nat, j: nat)
    requires Chronological(h) && cfg.multiplier >= 1 && i < j <= |h|
    requires h[i].kind == Timed(key) && h[i].made && Asks(cfg, Run(cfg, h[..i]), h[i])
    ensures var plain := PlainRun(cfg, h[..j]).cache; key in plain && h[i].time <= plain[key]
  {
    assert h[..j][..j - 1] == h[..j - 1] && h[..j][|h[..j]| - 1] == h[j - 1];
    if i < j - 1 {
      LastIsRemembered(cfg, h, key, i, j - 1);
    } else {
      CleaningOnlyDropsOld(cfg, h[..i], h[i].time);
    }
  }

  // Request i asked the event service and an event was created.
  ghost predicate MadeAt(cfg: Config, h: seq<Request>, i: nat) {
    i < |h| && h[i].made && Asks(cfg, Run(cfg, h[..i]), h[i])
  }

  lemma {:induction false} PlainIsLastMade(cfg: Config, h: seq<Request>, n: nat, key: string) returns (last: nat)
    requires Chronological(h) && n <= |h| && (cfg.cooldown <= 0 || cfg.multiplier >= 1)
    ensures var plain := PlainRun(cfg, h[..n]).cache;
            if key in plain
            then last < n && MadeAt(cfg, h, last) && h[last].kind == Timed(key) && h[last].time == plain[key]
                 && forall j :: last < j < n && h[j].kind == Timed(key) ==> !MadeAt(cfg, h, j)
            else forall j :: 0 <= j < n && h[j].kind == Timed(key) ==> !MadeAt(cfg, h, j)
  {
    last := 0;
    if n > 0 {
      last := PlainIsLastMade(cfg, h, n - 1, key);
      PlainChanges(cfg, h, n - 1, key);
      if h[n - 1].kind == Timed(key) && MadeAt(cfg, h, n - 1) {
        last := n - 1;
      }
    }
  }

  lemma PlainChanges(cfg: Config, h: seq<Request>, n: nat, key: string)
    requires Chronological(h) && n < |h| && (cfg.cooldown <= 0 || cfg.multiplier >= 1)
    ensures var before, after := PlainRun(cfg, h[..n]).cache, PlainRun(cfg, h[..n + 1]).cache;
            if h[n].kind == Timed(key) && MadeAt(cfg, h, n) then key in after && after[key] == h[n].time
            else (key in before <==> key in after) && (key in before ==> before[key] == after[key])
  {
    assert h[..n + 1][..n] == h[..n];
    CleaningOnlyDropsOld(cfg, h[..n], h[n].time);
  }

  lemma {:induction false} SentOnlyMade(cfg: Config, h: seq<Request>, n: nat, kind: Kind)
    requires n <= |h| && !kind.Timed?
    ensures kind in Run(cfg, h[..n]).sent <==> exists j :: 0 <= j < n && h[j].kind == kind && MadeAt(cfg, h, j)
  {
    if n > 0 {
      SentOnlyMade(cfg, h, n - 1, kind);
      assert h[..n][..n - 1] == h[..n - 1];
      assert h[n - 1].kind == kind && MadeAt(cfg, h, n - 1) ==> kind in Run(cfg, h[..n]).sent;
    }
  }

  // Main result: with agent and connection, a request for one of the three session kinds asks exactly when
  // no event of its kind was made before, any other exactly when none was made under its key within the
  // cooldown.
  lemma AsksExactly(cfg: Config, h: seq<Request>, i: nat)
    requires Chronological(h) && i < |h| && (cfg.cooldown <= 0 || cfg.multiplier >= 1)
    ensures Asks(cfg, Run(cfg, h[..i]), h[i])
            <==> h[i].active
                 && forall j :: 0 <= j < i && h[j].kind == h[i].kind && MadeAt(cfg, h, j)
                      ==> h[i].kind.Timed? && h[j].time + cfg.cooldown <= h[i].time
  {
    if h[i].kind.Timed? {
      CleaningOnlyDropsOld(cfg, h[..i], h[i].time);
      var last := PlainIsLastMade(cfg, h, i, h[i].kind.key);
    } else {
      SentOnlyMade(cfg, h, i, h[i].kind);
    }
  }

  // After an event was recorded, a cache over its size holds nothing older than the clean-up age.
  lemma CacheStaysSmall(cfg: Config, h: seq<Request>)
    requires h != [] && h[|h| - 1].kind.Timed? && MadeAt(cfg, h, |h| - 1)
    ensures var cache := Run(cfg, h).cache;
            |cache| <= cfg.maxSize
            || forall key :: key in cache ==> h[|h| - 1].time - cache[key] < cfg.cooldown * cfg.multiplier
  {
  }
}
