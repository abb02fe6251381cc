/** The severity-scoped strike counter with cooldown (monUtils.py), and the rows that
    Agent.create_event adds when the counter fires (models.py). */
module AlertEngine {
  import opened Wrappers
  import opened TtlStore

  const STREAK_TTL := 3600

  datatype Severity = Critical | Warning

  datatype Component = Component(source: string, metric: string, uuid: string)

  // Streak and cooldown keys live in the same Redis database.
  datatype StoreKey = StreakKey(comp: Component, sev: Severity) | CooldownKey(comp: Component, sev: Severity)

  datatype Strikes = Strikes(critical: int, warning: int) {
    function For(sev: Severity): int {
      if sev == Critical then critical else warning
    }
  }

  datatype Reading = Reading(
    time: int, comp: Component, util: Option<real>,
    critical: real, warning: Option<real>, criticalRepeat: int, warningRepeat: int)
  {
    // Minutes of cooldown configured for one severity at the time of this reading.
    function Repeat(sev: Severity): int {
      if sev == Critical then criticalRepeat else warningRepeat
    }

    function CooldownEnd(sev: Severity): int {
      time + 60 * Repeat(sev)
    }
  }

  datatype Grade = Ignored | Green | Breach(sev: Severity)

  function GradeOf(r: Reading): Grade {
    match r.util
    case None => Ignored
    case Some(u) =>
      if u > r.critical then Breach(Critical)
      else if r.warning.Some? && u > r.warning.value then Breach(Warning)
      else Green
  }

  datatype EventRow = EventRow(comp: Component, sev: Severity, time: int)
  datatype AlertRow = AlertRow(event: EventRow, suppressed: bool)

  datatype World = World(
    store: map<StoreKey, Entry<int>>, events: seq<EventRow>, alerts: seq<AlertRow>, emails: seq<EventRow>)

  // ---------------------------------------------------------------------------------------------
  // One call, on values
  // ---------------------------------------------------------------------------------------------

  // Whether the call for reading r creates an alert, read off the store before the call.
  function FiresNow(strikes: Strikes, store: map<StoreKey, Entry<int>>, r: Reading): Option<Severity> {
    match GradeOf(r)
    case Breach(sev) =>
      var key := StreakKey(r.comp, sev);
      if Live(store, key, r.time) && store[key].value + 1 >= strikes.For(sev)
         && !Live(store, CooldownKey(r.comp, sev), r.time)
      then Some(sev) else None
    case _ => None
  }

  function LiveStreaks(store: map<StoreKey, Entry<int>>, comp: Component, now: int): set<StoreKey> {
    set sev: Severity | Live(store, StreakKey(comp, sev), now) :: StreakKey(comp, sev)
  }

  function StepStore(strikes: Strikes, store: map<StoreKey, Entry<int>>, r: Reading): map<StoreKey, Entry<int>> {
    match GradeOf(r)
    case Ignored => store
    case Green =>
      store - LiveStreaks(store, r.comp, r.time)
    case Breach(sev) =>
      var key := StreakKey(r.comp, sev);
      var count := if Live(store, key, r.time) then store[key].value + 1 else 1;
      var counted := store[key := Entry(count, r.time + STREAK_TTL)];
      if FiresNow(strikes, store, r).Some?
      then counted[CooldownKey(r.comp, sev) := Entry(1, r.CooldownEnd(sev))]
      else counted
  }

  // Agent.create_event with event type "Alert" for a metric component.
  function CreateEvent(w: World, e: EventRow, inMaintenance: bool): World {
    w.(events := w.events + [e],
       alerts := w.alerts + [AlertRow(e, inMaintenance)],
       emails := if inMaintenance then w.emails else w.emails + [e])
  }

  function Step(strikes: Strikes, w: World, r: Reading, inMaintenance: bool): World {
    var w' := match FiresNow(strikes, w.store, r)
      case Some(sev) => CreateEvent(w, EventRow(r.comp, sev, r.time), inMaintenance)
      case None => w;
    w'.(store := StepStore(strikes, w.store, r))
  }

  // ---------------------------------------------------------------------------------------------
  // The code
  // ---------------------------------------------------------------------------------------------

  class Engine {
    const rdb: Store<StoreKey, int>
    const strikes: Strikes
    var events: seq<EventRow>
    var alerts: seq<AlertRow>
    var emails: seq<EventRow>

    constructor (rdb: Store<StoreKey, int>, strikes: Strikes)
      ensures this.rdb == rdb && this.strikes == strikes
      ensures events == [] && alerts == [] && emails == []
    {
      this.rdb, this.strikes := rdb, strikes;
      events, alerts, emails := [], [], [];
    }

    ghost function View(): World
      reads this, rdb
    {
      World(rdb.entries, events, alerts, emails)
    }

    method CheckThresholdAndAlert(r: Reading, inMaintenance: bool)
      modifies this, rdb
      ensures View() == Step(strikes, old(View()), r, inMaintenance)
    {
      if r.util.None? {
        return;
      }
      var sev: Severity;
      if r.util.value > r.critical {
        sev := Critical;
      } else if r.warning.Some? && r.util.value > r.warning.value {
        sev := Warning;
      } else {
        ResetStreak(r.comp, r.time);
        return;
      }
      var streakKey, cooldownKey := StreakKey(r.comp, sev), CooldownKey(r.comp, sev);
      var previous := rdb.Get(streakKey, r.time);
      if previous.Some? {
        var streak := previous.value + 1;
        rdb.SetWithTtl(streakKey, streak, STREAK_TTL, r.time);
        if streak >= strikes.For(sev) {
          var cooling := rdb.Exists(cooldownKey, r.time);
          if !cooling {
            RecordEvent(EventRow(r.comp, sev, r.time), inMaintenance);
            rdb.SetWithTtl(cooldownKey, 1, 60 * r.Repeat(sev), r.time);
          }
        }
      } else {
        rdb.SetWithTtl(streakKey, 1, STREAK_TTL, r.time);
      }
    }

    method ResetStreak(comp: Component, now: int)
      modifies rdb
      ensures rdb.entries == old(rdb.entries) - LiveStreaks(old(rdb.entries), comp, now)
    {
      var severities := [Critical, Warning];
      for i := 0 to |severities|
        invariant rdb.entries == old(rdb.entries)
                                 - (set key <- LiveStreaks(old(rdb.entries), comp, now) | key.sev in severities[..i])
      {
        var live := rdb.Exists(StreakKey(comp, severities[i]), now);
        if live {
          rdb.Delete(StreakKey(comp, severities[i]));
        }
      }
      assert severities[..|severities|] == severities;
      forall key | key in LiveStreaks(old(rdb.entries), comp, now)
        ensures key.sev in severities
      {
        match key.sev
        case Critical => assert severities[0] == key.sev;
        case Warning => assert severities[1] == key.sev;
      }
    }

    // A maintenance window suppresses the alert row and ends the call before the e-mail.
    method RecordEvent(e: EventRow, inMaintenance: bool)
      modifies this
      ensures events == old(events) + [e]
      ensures alerts == old(alerts) + [AlertRow(e, inMaintenance)]
      ensures emails == if inMaintenance then old(emails) else old(emails) + [e]
    {
      events := events + [e];
      if inMaintenance {
        alerts := alerts + [AlertRow(e, true)];
        return;
      }
      alerts := alerts + [AlertRow(e, false)];
      emails := emails + [e];
    }
  }
}
