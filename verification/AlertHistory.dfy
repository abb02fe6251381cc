/** What the alert engine does over whole runs, said in terms of the readings alone. */
module AlertHistory {
  import opened Wrappers
  import opened TtlStore
  import opened AlertEngine
  import opened Arithmetic

  type History = seq<Reading>

  ghost predicate Chronological(h: History) {
    forall i, j :: 0 <= i < j < |h| ==> h[i].time <= h[j].time
  }

  ghost predicate UpTo(h: History, now: int) {
    Chronological(h) && forall i :: 0 <= i < |h| ==> h[i].time <= now
  }

  function Init(h: History): History
    requires h != []
  {
    h[..|h| - 1]
  }

  function Last(h: History): Reading
    requires h != []
  {
    h[|h| - 1]
  }

  function RunStore(strikes: Strikes, h: History): map<StoreKey, Entry<int>> {
    if h == [] then map[] else StepStore(strikes, RunStore(strikes, Init(h)), Last(h))
  }

  // The severity for which the engine creates an alert on reading r after the readings h.
  function Fired(strikes: Strikes, h: History, r: Reading): Option<Severity> {
    FiresNow(strikes, RunStore(strikes, h), r)
  }

  // ---------------------------------------------------------------------------------------------
  // The specification: no store, no expiry, only readings
  // ---------------------------------------------------------------------------------------------

  // What a reading says, on its numbers.  A critical reading is not a warning as well.
  predicate IsCritical(r: Reading) {
    r.util.Some? && r.util.value > r.critical
  }

  predicate IsWarning(r: Reading) {
    r.util.Some? && r.util.value <= r.critical && r.warning.Some? && r.util.value > r.warning.value
  }

  predicate IsGreen(r: Reading) {
    r.util.Some? && r.util.value <= r.critical && (r.warning.Some? ==> r.util.value <= r.warning.value)
  }

  predicate Breaches(r: Reading, sev: Severity) {
    match sev
    case Critical => IsCritical(r)
    case Warning => IsWarning(r)
  }

  function RequiredStrikes(strikes: Strikes, sev: Severity): int {
    match sev
    case Critical => strikes.critical
    case Warning => strikes.warning
  }

  function CooldownMinutes(r: Reading, sev: Severity): int {
    match sev
    case Critical => r.criticalRepeat
    case Warning => r.warningRepeat
  }

  // The number of sev readings of comp since its last green reading or its last gap of an hour between
  // two such readings, seen at time now.
  function Streak(h: History, comp: Component, sev: Severity, now: int): nat {
    if h == [] then 0
    else
      var r := Last(h);
      if r.comp != comp then Streak(Init(h), comp, sev, now)
      else if IsGreen(r) then 0
      else if !Breaches(r, sev) then Streak(Init(h), comp, sev, now)
      else if now - r.time < 3600 then Streak(Init(h), comp, sev, r.time) + 1
      else 0
  }

  // Reading r, coming after h, raises an alert of severity sev for comp.
  ghost predicate Alerts(strikes: Strikes, h: History, r: Reading, comp: Component, sev: Severity)
    decreases |h|, 1
  {
    && r.comp == comp
    && Breaches(r, sev)
    && Streak(h, comp, sev, r.time) + 1 >= 2
    && Streak(h, comp, sev, r.time) + 1 >= RequiredStrikes(strikes, sev)
    && !Cooling(strikes, h, comp, sev, r.time)
  }

  // Some alert for (comp, sev) in h has a cooldown that still covers now.
  ghost predicate Cooling(strikes: Strikes, h: History, comp: Component, sev: Severity, now: int)
    decreases |h|, 0
  {
    h != [] &&
    (Cooling(strikes, Init(h), comp, sev, now) ||
     (Alerts(strikes, Init(h), Last(h), comp, sev) && now < Last(h).time + 60 * CooldownMinutes(Last(h), sev)))
  }

  // ---------------------------------------------------------------------------------------------
  // The engine refines it
  // ---------------------------------------------------------------------------------------------

  // What one reading does to a streak key.
  lemma StreakStep(strikes: Strikes, store: map<StoreKey, Entry<int>>, r: Reading, comp: Component, sev: Severity)
    ensures var key, store' := StreakKey(comp, sev), StepStore(strikes, store, r);
            if r.comp == comp && IsGreen(r) then !Live(store', key, r.time)
            else if r.comp == comp && Breaches(r, sev)
            then key in store' && store'[key] == Entry(if Live(store, key, r.time) then store[key].value + 1 else 1,
                                                       r.time + 3600)
            else (key in store <==> key in store') && (key in store ==> store[key] == store'[key])
  {
  }

  lemma {:induction false} StreakRefined(strikes: Strikes, h: History, comp: Component, sev: Severity, now: int)
    requires UpTo(h, now)
    ensures Lookup(RunStore(strikes, h), StreakKey(comp, sev), now)
            == (var n := Streak(h, comp, sev, now); if n == 0 then None else Some(n))
  {
    if h != [] {
      StreakRefined(strikes, Init(h), comp, sev, now);
      StreakRefined(strikes, Init(h), comp, sev, Last(h).time);
      StreakStep(strikes, RunStore(strikes, Init(h)), Last(h), comp, sev);
    }
  }

  lemma {:induction false} CoolingRefined(strikes: Strikes, h: History, comp: Component, sev: Severity, now: int)
    requires UpTo(h, now)
    ensures Live(RunStore(strikes, h), CooldownKey(comp, sev), now) <==> Cooling(strikes, h, comp, sev, now)
    decreases |h|, 0
  {
    if h != [] {
      CoolingRefined(strikes, Init(h), comp, sev, now);
      AlertRefined(strikes, Init(h), Last(h));
      if Cooling(strikes, Init(h), comp, sev, now) {
        CoolingMonotone(strikes, Init(h), comp, sev, Last(h).time, now);
      }
    }
  }

  lemma {:induction false} CoolingMonotone(
    strikes: Strikes, h: History, comp: Component, sev: Severity, now: int, later: int)
    requires now <= later && Cooling(strikes, h, comp, sev, later)
    ensures Cooling(strikes, h, comp, sev, now)
  {
    if Cooling(strikes, Init(h), comp, sev, later) {
      CoolingMonotone(strikes, Init(h), comp, sev, now, later);
    }
  }

  // Main result: the engine raises an alert exactly when the history calls for one.
  lemma {:induction false} AlertRefined(strikes: Strikes, h: History, r: Reading)
    requires UpTo(h, r.time)
    ensures forall sev :: Fired(strikes, h, r) == Some(sev) <==> Alerts(strikes, h, r, r.comp, sev)
    decreases |h|, 1
  {
    match GradeOf(r)
    case Breach(sev) =>
      StreakRefined(strikes, h, r.comp, sev, r.time);
      CoolingRefined(strikes, h, r.comp, sev, r.time);
    case _ =>
  }

  // ---------------------------------------------------------------------------------------------
  // Whole runs
  // ---------------------------------------------------------------------------------------------

  // Whether the agent that a reading was checked with is in maintenance at that instant.
  type Windows = Reading -> bool

  function Run(strikes: Strikes, h: History, windows: Windows): World {
    if h == [] then World(map[], [], [], [])
    else Step(strikes, Run(strikes, Init(h), windows), Last(h), windows(Last(h)))
  }

  // The alerts the history calls for.
  ghost function Expected(strikes: Strikes, h: History): seq<EventRow> {
    if h == [] then []
    else
      Expected(strikes, Init(h)) + Called(strikes, Init(h), Last(h))
  }

  ghost function Called(strikes: Strikes, h: History, r: Reading): seq<EventRow> {
    if Alerts(strikes, h, r, r.comp, Critical) then [EventRow(r.comp, Critical, r.time)]
    else if Alerts(strikes, h, r, r.comp, Warning) then [EventRow(r.comp, Warning, r.time)]
    else []
  }

  lemma {:induction false} RunRefined(strikes: Strikes, h: History, windows: Windows)
    requires Chronological(h)
    ensures Run(strikes, h, windows).store == RunStore(strikes, h)
    ensures Run(strikes, h, windows).events == Expected(strikes, h)
  {
    if h != [] {
      RunRefined(strikes, Init(h), windows);
      AlertRefined(strikes, Init(h), Last(h));
    }
  }

  // --- Maintenance windows -----------------------------------------------------------------------

  // The readings that raise an alert.
  function Firing(strikes: Strikes, h: History): seq<Reading> {
    if h == [] then []
    else if Fired(strikes, Init(h), Last(h)).Some? then Firing(strikes, Init(h)) + [Last(h)]
    else Firing(strikes, Init(h))
  }

  // The rows of the readings outside every window.
  function NotIn(windows: Windows, firing: seq<Reading>, rows: seq<EventRow>): seq<EventRow>
    requires |firing| == |rows|
  {
    if rows == [] then []
    else
      var n := |rows| - 1;
      var rest := NotIn(windows, firing[..n], rows[..n]);
      if windows(firing[n]) then rest else rest + [rows[n]]
  }

  // Windows never change what is counted or when it fires: they only mark alert rows and drop mails.
  lemma {:induction false} WindowsOnlySuppress(strikes: Strikes, h: History, windows: Windows, others: Windows)
    ensures var w, v := Run(strikes, h, windows), Run(strikes, h, others);
            var firing := Firing(strikes, h);
            && w.store == v.store == RunStore(strikes, h)
            && w.events == v.events
            && |w.alerts| == |w.events| == |firing|
            && (forall i :: 0 <= i < |w.events| ==>
                  && w.events[i].comp == firing[i].comp && w.events[i].time == firing[i].time
                  && w.alerts[i] == AlertRow(w.events[i], windows(firing[i])))
            && w.emails == NotIn(windows, firing, w.events)
  {
    if h != [] {
      WindowsOnlySuppress(strikes, Init(h), windows, others);
      var before, w := Run(strikes, Init(h), windows), Run(strikes, h, windows);
      if Fired(strikes, Init(h), Last(h)).Some? {
        assert w.events[..|w.events| - 1] == before.events;
        assert Firing(strikes, h)[..|w.events| - 1] == Firing(strikes, Init(h));
      }
    }
  }

  // --- Independence of components ----------------------------------------------------------------

  function Only(h: History, comp: Component): History {
    if h == [] then []
    else if Last(h).comp == comp then Only(Init(h), comp) + [Last(h)]
    else Only(Init(h), comp)
  }

  function RowsOf(rows: seq<EventRow>, comp: Component): seq<EventRow> {
    if rows == [] then []
    else
      var row, rest := rows[|rows| - 1], RowsOf(rows[..|rows| - 1], comp);
      if row.comp == comp then rest + [row] else rest
  }

  lemma {:induction false} OnlyUpTo(h: History, comp: Component, now: int)
    requires UpTo(h, now)
    ensures UpTo(Only(h, comp), now)
  {
    if h != [] {
      OnlyUpTo(Init(h), comp, Last(h).time);
    }
  }

  lemma OnlyLast(h: History, comp: Component)
    requires h != [] && Last(h).comp == comp
    ensures var only := Only(h, comp); only != [] && Init(only) == Only(Init(h), comp) && Last(only) == Last(h)
  {
  }

  lemma {:induction false} StreakAlone(h: History, comp: Component, sev: Severity, now: int)
    ensures Streak(h, comp, sev, now) == Streak(Only(h, comp), comp, sev, now)
  {
    if h != [] {
      if Last(h).comp == comp {
        OnlyLast(h, comp);
        StreakAlone(Init(h), comp, sev, Last(h).time);
        StreakAlone(Init(h), comp, sev, now);
      } else {
        StreakAlone(Init(h), comp, sev, now);
      }
    }
  }

  lemma {:induction false} CoolingAlone(strikes: Strikes, h: History, comp: Component, sev: Severity, now: int)
    ensures Cooling(strikes, h, comp, sev, now) == Cooling(strikes, Only(h, comp), comp, sev, now)
    decreases |h|, 0
  {
    if h != [] {
      CoolingAlone(strikes, Init(h), comp, sev, now);
      if Last(h).comp == comp {
        OnlyLast(h, comp);
        AlertsAlone(strikes, Init(h), Last(h), comp, sev);
      }
    }
  }

  lemma {:induction false} AlertsAlone(strikes: Strikes, h: History, r: Reading, comp: Component, sev: Severity)
    ensures Alerts(strikes, h, r, comp, sev) == Alerts(strikes, Only(h, comp), r, comp, sev)
    decreases |h|, 1
  {
    StreakAlone(h, comp, sev, r.time);
    CoolingAlone(strikes, h, comp, sev, r.time);
  }

  lemma {:induction false} ExpectedAlone(strikes: Strikes, h: History, comp: Component)
    ensures RowsOf(Expected(strikes, h), comp) == Expected(strikes, Only(h, comp))
  {
    if h != [] {
      ExpectedAlone(strikes, Init(h), comp);
      ExpectedLast(strikes, h);
      if Last(h).comp == comp {
        OnlyLast(h, comp);
        AlertsAlone(strikes, Init(h), Last(h), comp, Critical);
        AlertsAlone(strikes, Init(h), Last(h), comp, Warning);
      }
    }
  }

  lemma ExpectedLast(strikes: Strikes, h: History)
    requires h != []
    ensures var before, row := Expected(strikes, Init(h)), Called(strikes, Init(h), Last(h));
            && |row| <= 1
            && (row == [] ==> Expected(strikes, h) == before)
            && (row != [] ==>
                  Expected(strikes, h) != [] && Expected(strikes, h)[..|Expected(strikes, h)| - 1] == before)
  {
  }

  // Main result: in any interleaving each component gets exactly the alerts it would get alone.
  lemma ComponentsIndependent(strikes: Strikes, h: History, comp: Component, windows: Windows)
    requires Chronological(h)
    ensures RowsOf(Run(strikes, h, windows).events, comp) == Run(strikes, Only(h, comp), windows).events
  {
    if h != [] {
      OnlyUpTo(h, comp, Last(h).time);
    }
    RunRefined(strikes, h, windows);
    RunRefined(strikes, Only(h, comp), windows);
    ExpectedAlone(strikes, h, comp);
  }

  // --- Rate of alerts ----------------------------------------------------------------------------

  function TimesOf(rows: seq<EventRow>, comp: Component, sev: Severity): seq<int> {
    if rows == [] then []
    else
      var row, rest := rows[|rows| - 1], TimesOf(rows[..|rows| - 1], comp, sev);
      if row.comp == comp && row.sev == sev then rest + [row.time] else rest
  }

  // The instants at which the engine raises an alert of one severity for one component.
  function AlertTimes(strikes: Strikes, h: History, comp: Component, sev: Severity): seq<int> {
    TimesOf(Run(strikes, h, _ => false).events, comp, sev)
  }

  ghost predicate Spaced(times: seq<int>, gap: int) {
    forall i, j :: 0 <= i < j < |times| ==> times[i] + gap <= times[j]
  }

  function CountWithin(times: seq<int>, from: int, until: int): nat {
    if times == [] then 0
    else
      CountWithin(times[..|times| - 1], from, until) + (if from <= times[|times| - 1] <= until then 1 else 0)
  }

  ghost predicate RepeatIs(h: History, comp: Component, sev: Severity, minutes: int) {
    forall i :: 0 <= i < |h| && h[i].comp == comp ==> CooldownMinutes(h[i], sev) == minutes
  }

  lemma CalledIs(strikes: Strikes, h: History, r: Reading, comp: Component, sev: Severity)
    ensures |Called(strikes, h, r)| <= 1
    ensures Alerts(strikes, h, r, comp, sev) <==> Called(strikes, h, r) == [EventRow(comp, sev, r.time)]
  {
    match sev case Critical => case Warning =>
  }

  lemma TimesAppend(rows: seq<EventRow>, row: EventRow, comp: Component, sev: Severity)
    ensures TimesOf(rows + [row], comp, sev)
            == TimesOf(rows, comp, sev) + (if row.comp == comp && row.sev == sev then [row.time] else [])
  {
    assert (rows + [row])[..|rows + [row]| - 1] == rows;
  }

  lemma AlertTimesStep(strikes: Strikes, h: History, comp: Component, sev: Severity)
    requires Chronological(h) && h != []
    ensures AlertTimes(strikes, h, comp, sev)
            == AlertTimes(strikes, Init(h), comp, sev)
               + (if Alerts(strikes, Init(h), Last(h), comp, sev) then [Last(h).time] else [])
  {
    RunRefined(strikes, h, _ => false);
    RunRefined(strikes, Init(h), _ => false);
    CalledIs(strikes, Init(h), Last(h), comp, sev);
    var before, row := Expected(strikes, Init(h)), Called(strikes, Init(h), Last(h));
    if row == [] {
      assert before + row == before;
    } else {
      assert row == [row[0]] && row[0].time == Last(h).time;
      TimesAppend(before, row[0], comp, sev);
    }
  }

  // Main result: green readings reset the streak but never the cooldown, so alerts stay spaced.
  lemma {:induction false} AlertsSpaced(strikes: Strikes, h: History, comp: Component, sev: Severity, minutes: int)
    requires Chronological(h) && RepeatIs(h, comp, sev, minutes)
    ensures Spaced(AlertTimes(strikes, h, comp, sev), 60 * minutes)
    ensures forall i, now |
              0 <= i < |AlertTimes(strikes, h, comp, sev)| && now < AlertTimes(strikes, h, comp, sev)[i] + 60 * minutes
              :: Cooling(strikes, h, comp, sev, now)
  {
    if h != [] {
      AlertTimesStep(strikes, h, comp, sev);
      AlertsSpaced(strikes, Init(h), comp, sev, minutes);
    }
  }

  // How many instants, gap apart, fit in a window of the given length.
  function Slots(length: int, gap: int): nat
    requires gap > 0
  {
    if length < 0 then 0 else 1 + length / gap
  }

  lemma SlotStep(length: int, shorter: int, gap: int)
    requires gap > 0 && 0 <= length && shorter + gap <= length
    ensures Slots(shorter, gap) + 1 <= Slots(length, gap)
  {
    if shorter >= 0 {
      QuotientIs(shorter, gap, shorter / gap);
      QuotientIs(shorter + gap, gap, shorter / gap + 1);
      assert gap * (shorter / gap + 1) == gap * (shorter / gap) + gap;
      DivMonotone(shorter + gap, length, gap);
    }
  }

  lemma {:induction false} SpacedCount(times: seq<int>, gap: int, from: int, until: int)
    requires gap > 0 && Spaced(times, gap)
    ensures CountWithin(times, from, until) <= Slots(until - from, gap)
  {
    if times != [] {
      var last, rest := times[|times| - 1], times[..|times| - 1];
      if from <= last <= until {
        CountOnlyEarlier(rest, from, until, last - gap);
        SpacedCount(rest, gap, from, last - gap);
        SlotStep(until - from, last - gap - from, gap);
      } else {
        SpacedCount(rest, gap, from, until);
      }
    }
  }

  lemma {:induction false} CountOnlyEarlier(times: seq<int>, from: int, until: int, bound: int)
    requires bound <= until && forall i :: 0 <= i < |times| ==> times[i] <= bound
    ensures CountWithin(times, from, until) == CountWithin(times, from, bound)
  {
    if times != [] {
      CountOnlyEarlier(times[..|times| - 1], from, until, bound);
    }
  }

  lemma AlertRateBounded(
    strikes: Strikes, h: History, comp: Component, sev: Severity, minutes: int, from: int, length: nat)
    requires Chronological(h) && RepeatIs(h, comp, sev, minutes) && minutes > 0
    ensures CountWithin(AlertTimes(strikes, h, comp, sev), from, from + length) <= 1 + length / (60 * minutes)
  {
    AlertsSpaced(strikes, h, comp, sev, minutes);
    SpacedCount(AlertTimes(strikes, h, comp, sev), 60 * minutes, from, from + length);
  }
}
