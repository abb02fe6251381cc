/** Alert suppression tied to the maintenance automaton.  A message handler reads its agent once and checks
    all of the message's readings with what it read, so an alert is suppressed by those fields. */
module Suppression {
  import opened Wrappers
  import opened AlertEngine
  import opened AlertHistory
  import M = Maintenance

  // One agent: its fields at the start, and everything that happens to them.
  datatype Life = Life(start: M.Agent, run: seq<M.Action>)

  type Lives = string -> Life

  // How many of the actions on its agent were over when a reading's handler read the agent.
  type Reads = Reading -> nat

  function Until(run: seq<M.Action>, now: int): seq<M.Action> {
    if run == [] || run[|run| - 1].at <= now then run else Until(run[..|run| - 1], now)
  }

  // The agent as the handler read it, and as it is.
  function AsRead(lives: Lives, readAt: Reads, r: Reading): M.Agent {
    var life := lives(r.comp.source);
    M.After(life.start, if readAt(r) <= |life.run| then life.run[..readAt(r)] else life.run)
  }

  function Current(lives: Lives, r: Reading): M.Agent {
    M.After(lives(r.comp.source).start, Until(lives(r.comp.source).run, r.time))
  }

  function WindowsOf(lives: Lives, readAt: Reads): Windows {
    (r: Reading) => M.IsInMaintenance(AsRead(lives, readAt, r), r.time)
  }

  ghost predicate Ordered(run: seq<M.Action>) {
    run != [] ==> M.UpTo(run, run[|run| - 1].at)
  }

  // The read comes before the reading is checked.
  ghost predicate ReadBefore(lives: Lives, readAt: Reads, r: Reading) {
    Ordered(lives(r.comp.source).run) && readAt(r) <= |Until(lives(r.comp.source).run, r.time)|
  }

  lemma {:induction false} UntilIs(run: seq<M.Action>, now: int)
    requires Ordered(run)
    ensures M.UpTo(Until(run, now), now) && Until(run, now) <= run
  {
    if run != [] && run[|run| - 1].at > now {
      UntilIs(run[..|run| - 1], now);
    }
  }

  lemma {:induction false} UneditedPrefix(a: M.Agent, run: seq<M.Action>, n: nat)
    requires M.Unedited(a, run) && n <= |run|
    ensures M.Unedited(a, run[..n])
  {
    if n == |run| {
      assert run[..n] == run;
    } else {
      UneditedPrefix(a, run[..|run| - 1], n);
      assert run[..|run| - 1][..n] == run[..n];
    }
  }

  // ---------------------------------------------------------------------------------------------
  // Jobs alone
  // ---------------------------------------------------------------------------------------------

  // The same agents, with nothing ever done to them.
  function Untouched(lives: Lives): Lives {
    (source: string) => Life(lives(source).start, [])
  }

  // The handler of each reading read an agent that nobody has edited, whose window does not end just then.
  ghost predicate OnlyJobs(h: History, lives: Lives, readAt: Reads) {
    forall i :: 0 <= i < |h| ==>
      && ReadBefore(lives, readAt, h[i])
      && M.Unedited(lives(h[i].comp.source).start, lives(h[i].comp.source).run)
      && lives(h[i].comp.source).start.end != Some(h[i].time)
  }

  lemma JobsDoNotShowAt(lives: Lives, readAt: Reads, r: Reading)
    requires ReadBefore(lives, readAt, r)
    requires var life := lives(r.comp.source); M.Unedited(life.start, life.run) && life.start.end != Some(r.time)
    ensures WindowsOf(lives, readAt)(r) == WindowsOf(Untouched(lives), readAt)(r)
  {
    var life, n := lives(r.comp.source), readAt(r);
    UntilIs(life.run, r.time);
    UneditedPrefix(life.start, life.run, n);
    M.TasksDoNotShow(life.start, life.run[..n], r.time);
  }

  // Main result: whenever and however often the maintenance jobs are executed, and whenever the handlers
  // read their agents, every alert, suppression and mail of a run is what the scheduled windows alone make
  // it, except for readings that come at exactly the end of a window.
  lemma {:induction false} JobsDoNotShow(strikes: Strikes, h: History, lives: Lives, readAt: Reads)
    requires OnlyJobs(h, lives, readAt)
    ensures Run(strikes, h, WindowsOf(lives, readAt)) == Run(strikes, h, WindowsOf(Untouched(lives), readAt))
  {
    if h != [] {
      JobsDoNotShow(strikes, Init(h), lives, readAt);
      JobsDoNotShowAt(lives, readAt, Last(h));
    }
  }

  // ---------------------------------------------------------------------------------------------
  // With edits
  // ---------------------------------------------------------------------------------------------

  // An alert row is suppressed, and its mail dropped, exactly when the fields that its handler read say
  // maintenance.
  lemma SuppressedExactly(strikes: Strikes, h: History, lives: Lives, readAt: Reads, i: nat)
    requires i < |Firing(strikes, h)|
    ensures var w, firing := Run(strikes, h, WindowsOf(lives, readAt)), Firing(strikes, h);
            && |w.alerts| == |w.events| == |firing|
            && w.alerts[i].event == w.events[i] && w.events[i].comp == firing[i].comp
            && (w.alerts[i].suppressed <==> M.IsInMaintenance(AsRead(lives, readAt, firing[i]), firing[i].time))
            && w.emails == NotIn(WindowsOf(lives, readAt), firing, w.events)
  {
    WindowsOnlySuppress(strikes, h, WindowsOf(lives, readAt), WindowsOf(lives, readAt));
  }

  // Main result: what was read decides as the current fields would, exactly when no edit since the read,
  // or the last one of them, answers otherwise.
  lemma StaleReadExactly(lives: Lives, readAt: Reads, r: Reading)
    requires ReadBefore(lives, readAt, r)
    requires var life := lives(r.comp.source);
             M.AnswerEnd(life.start, Until(life.run, r.time), readAt(r)) != Some(r.time)
    ensures var life := lives(r.comp.source);
            var run := Until(life.run, r.time);
            WindowsOf(lives, readAt)(r) == M.IsInMaintenance(Current(lives, r), r.time)
            <==> match M.LastEdit(life.start, run, readAt(r))
                 case None => true
                 case Some(k) => M.EditAnswer(run[k], r.time) == WindowsOf(lives, readAt)(r)
  {
    var life := lives(r.comp.source);
    var run := Until(life.run, r.time);
    UntilIs(life.run, r.time);
    assert run[..readAt(r)] == life.run[..readAt(r)];
    M.OnlyEditsShow(life.start, run, readAt(r), r.time);
  }

  // Such an edit is all it takes: two breaches of a message whose handler read the agent before the
  // operator switched maintenance on raise an alert that is mailed.
  lemma StaleReadMails(end: int)
    requires end > 0
    ensures var lives: Lives := _ => Life(M.NEW_AGENT, [M.Change(0, true, None, Some(end))]);
            var r := Reading(0, Component("agent", "cpu", "uuid"), Some(2.0), 1.0, None, 30, 60);
            && ReadBefore(lives, _ => 0, r) && M.IsInMaintenance(Current(lives, r), 0)
            && |Run(Strikes(1, 1), [r, r], WindowsOf(lives, _ => 0)).emails| == 1
  {
    var change := M.Change(0, true, None, Some(end));
    var lives: Lives := _ => Life(M.NEW_AGENT, [change]);
    var r := Reading(0, Component("agent", "cpu", "uuid"), Some(2.0), 1.0, None, 30, 60);
    var windows := WindowsOf(lives, _ => 0);
    assert [change][..0] == [] && [r, r][..1] == [r] && [r][..0] == [];
    assert M.After(M.NEW_AGENT, [change]) == M.Agent(true, Some(0), Some(end), M.InMaintenance);
    assert Init([r]) == [] && Init([r, r]) == [r];
    var first := Run(Strikes(1, 1), [r], windows);
    assert Run(Strikes(1, 1), [], windows) == World(map[], [], [], []);
    assert GradeOf(r) == Breach(Critical) && FiresNow(Strikes(1, 1), map[], r) == None;
    assert first == Step(Strikes(1, 1), World(map[], [], [], []), r, windows(r));
    assert FiresNow(Strikes(1, 1), first.store, r) == Some(Critical);
    assert !windows(r);
  }
}
