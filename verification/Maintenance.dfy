/** Maintenance windows: the agent's fields (models.py), the two periodic tasks (tasks.py), the health
    update of a monitoring message (agentMonitoringHandler.py) and the operator's edits
    (set_maintenance_service.py). */
module Maintenance {
  import opened Wrappers

  datatype Health = Unset | Green | Amber | Red | InMaintenance

  datatype Agent = Agent(mode: bool, start: Option<int>, end: Option<int>, health: Health)

  const NEW_AGENT := Agent(false, None, None, Unset)

  predicate Reached(t: Option<int>, now: int) {
    t.Some? && t.value <= now
  }

  // The end of the window counts as maintenance for a scheduled window, but not once the mode is on.
  predicate IsInMaintenance(a: Agent, now: int) {
    if a.mode then !Reached(a.end, now)
    else a.start.Some? && a.end.Some? && a.start.value <= now <= a.end.value
  }

  function MarkMaintenance(a: Agent): Agent {
    a.(mode := true, health := InMaintenance)
  }

  // The queries of the two tasks.
  predicate Due(a: Agent, now: int) {
    !a.mode && Reached(a.start, now) && a.end.Some? && a.end.value > now
  }

  predicate Expired(a: Agent, now: int) {
    Reached(a.end, now) && (a.mode || a.start.Some?)
  }

  function Enable(a: Agent, now: int): Agent {
    if Due(a, now) then MarkMaintenance(a) else a
  }

  function Disable(a: Agent, now: int): Agent {
    if Expired(a, now) then NEW_AGENT else a
  }

  // The disabling job resets what its query selected, whatever others have written since.
  function DisableStale(a: Agent, now: int, written: Agent): Agent {
    if Expired(a, now) then NEW_AGENT else written
  }

  function Overlaid(agents: map<string, Agent>, written: map<string, Agent>, id: string): Agent
    requires id in agents
  {
    if id in written then written[id] else agents[id]
  }

  // A monitoring message: measured is the health computed from its readings.
  function Monitor(a: Agent, measured: Health, now: int): Agent {
    if IsInMaintenance(a, now) then a else a.(health := measured)
  }

  predicate EditAllowed(a: Agent, mode: bool, start: Option<int>, end: Option<int>) {
    && (mode ==> end.Some? && start.None? && !a.mode)
    && (!mode ==> (start.Some? <==> end.Some?))
    && (start.Some? && end.Some? ==> start.value < end.value)
  }

  function Edit(a: Agent, mode: bool, start: Option<int>, end: Option<int>, now: int): Agent {
    if !EditAllowed(a, mode, start, end) then a
    else if mode then MarkMaintenance(a.(start := Some(now), end := end))
    else Agent(false, start, end, Unset)
  }

  // The agents table with the two tasks that walk over it.
  class Table {
    var agents: map<string, Agent>

    constructor (agents: map<string, Agent>)
      ensures this.agents == agents
    {
      this.agents := agents;
    }

    method EnableScheduledMaintenance(now: int) returns (processed: nat)
      modifies this
      ensures agents == map id | id in old(agents) :: Enable(old(agents)[id], now)
      ensures processed == |set id | id in old(agents) && Due(old(agents)[id], now)|
    {
      var due := set id | id in agents && Due(agents[id], now);
      var todo := due;
      processed := 0;
      while todo != {}
        invariant todo <= due && processed == |due| - |todo|
        invariant agents.Keys == old(agents).Keys
        invariant forall id :: id in agents ==>
                    agents[id] == if id in due - todo then MarkMaintenance(old(agents)[id]) else old(agents)[id]
        decreases todo
      {
        var id :| id in todo;
        todo := todo - {id};
        agents := agents[id := MarkMaintenance(agents[id])];
        processed := processed + 1;
      }
      assert forall id :: id in agents ==> agents[id] == Enable(old(agents)[id], now);
    }

    // written holds the rows that others save between the query of the job and its own saves.
    method DisableExpiredMaintenance(now: int, written: map<string, Agent>) returns (count: nat)
      modifies this
      ensures agents == map id | id in old(agents) ::
                          DisableStale(old(agents)[id], now, Overlaid(old(agents), written, id))
      ensures count == |set id | id in old(agents) && Expired(old(agents)[id], now)|
    {
      var expired := set id | id in agents && Expired(agents[id], now);
      count := |expired|;
      agents := map id | id in agents :: Overlaid(agents, written, id);
      var todo := expired;
      while todo != {}
        invariant todo <= expired
        invariant agents.Keys == old(agents).Keys
        invariant forall id :: id in agents ==>
                    agents[id] == if id in expired - todo then NEW_AGENT else Overlaid(old(agents), written, id)
        decreases todo
      {
        var id :| id in todo;
        todo := todo - {id};
        agents := agents[id := agents[id].(mode := false, start := None, end := None, health := Unset)];
      }
      assert forall id :: id in agents ==>
               agents[id] == DisableStale(old(agents)[id], now, Overlaid(old(agents), written, id));
    }

    method ProcessMonitoringData(id: string, measured: Health, now: int)
      modifies this
      ensures agents == if id in old(agents)
                        then old(agents)[id := Monitor(old(agents)[id], measured, now)] else old(agents)
    {
      if id !in agents {
        return;
      }
      var agent := agents[id];
      if !IsInMaintenance(agent, now) {
        if agent.health != measured {
          agent := agent.(health := measured);
        }
        agents := agents[id := agent];
      }
    }
  }

  // ---------------------------------------------------------------------------------------------
  // The tasks, one at a time
  // ---------------------------------------------------------------------------------------------

  lemma GuardsExclusive(a: Agent, now: int)
    ensures !(Due(a, now) && Expired(a, now))
  {
  }

  // Running the enabling task changes is_in_maintenance at no later instant but the end of the window.
  lemma EnableChangesOnlyTheEnd(a: Agent, now: int, t: int)
    requires now <= t
    ensures IsInMaintenance(Enable(a, now), t) != IsInMaintenance(a, t) <==> Due(a, now) && a.end == Some(t)
  {
  }

  lemma DisableChangesOnlyTheEnd(a: Agent, now: int, t: int)
    requires now <= t
    ensures IsInMaintenance(Disable(a, now), t) != IsInMaintenance(a, t)
            <==> Expired(a, now) && !a.mode && Reached(a.start, t) && a.end == Some(t)
  {
  }

  // What an execution of each job achieves: a window that is open has its mode on, a window whose end has
  // been reached is gone, and no other agent is touched.
  lemma EnableAchieves(a: Agent, now: int)
    ensures var b := Enable(a, now);
            && (b.mode <==> a.mode || (IsInMaintenance(a, now) && a.end != Some(now)))
            && (b.mode && !a.mode ==> b == Agent(true, a.start, a.end, InMaintenance))
            && (b.mode == a.mode ==> b == a)
  {
  }

  lemma DisableAchieves(a: Agent, now: int)
    ensures var b := Disable(a, now);
            && (b.end.Some? && (b.mode || b.start.Some?) ==> now < b.end.value)
            && (b != a ==> b == Agent(false, None, None, Unset) && a.end.Some? && a.end.value <= now)
  {
  }

  // What the operator's edits do: a schedule that starts before it ends, an immediate window with an end
  // on an agent that has none running, or switching off; anything else is refused.
  lemma EditExactly(a: Agent, mode: bool, start: Option<int>, end: Option<int>, now: int)
    ensures var b := Edit(a, mode, start, end, now);
            match (mode, start, end)
            case (false, None, None) => b == Agent(false, None, None, Unset)
            case (false, Some(s), Some(e)) => b == if s < e then Agent(false, start, end, Unset) else a
            case (true, None, Some(e)) => b == if a.mode then a else Agent(true, Some(now), end, InMaintenance)
            case _ => b == a
  {
  }

  // An edit that comes between the query of the disabling job and its save is lost, unless the query did
  // not select the agent or the edit switches maintenance off itself.
  lemma EditKeptIff(a: Agent, now: int, mode: bool, start: Option<int>, end: Option<int>, at: int)
    ensures var edited := Edit(a, mode, start, end, at);
            DisableStale(a, now, edited) == edited
            <==> !Expired(a, now) || (!mode && start.None? && end.None?)
  {
  }

  // ---------------------------------------------------------------------------------------------
  // Whole runs
  // ---------------------------------------------------------------------------------------------

  // A message is handled in one step, or in several: its handler reads the agent when it starts and then,
  // once per entry of the message, decides on the fields it read and saves only the health.
  datatype Action =
    | RunEnable(at: int)
    | RunDisable(at: int)
    | Message(at: int, measured: Health)
    | Read(at: int, handler: nat)
    | Save(at: int, handler: nat, measured: Health)
    | Change(at: int, mode: bool, start: Option<int>, end: Option<int>)

  // The agent's row, and what each running handler has read of it.
  datatype World = World(agent: Agent, seen: map<nat, Agent>)

  function SaveStale(a: Agent, read: Agent, measured: Health, now: int): Agent {
    if IsInMaintenance(read, now) then a else a.(health := measured)
  }

  function Step(w: World, x: Action): World {
    match x
    case RunEnable(at) => w.(agent := Enable(w.agent, at))
    case RunDisable(at) => w.(agent := Disable(w.agent, at))
    case Message(at, measured) => w.(agent := Monitor(w.agent, measured, at))
    case Read(_, handler) => w.(seen := w.seen[handler := w.agent])
    case Save(at, handler, measured) =>
      if handler !in w.seen then w
      else w.(agent := SaveStale(w.agent, w.seen[handler], measured, at))
    case Change(at, mode, start, end) => w.(agent := Edit(w.agent, mode, start, end, at))
  }

  function Play(a: Agent, run: seq<Action>): World {
    if run == [] then World(a, map[]) else Step(Play(a, run[..|run| - 1]), run[|run| - 1])
  }

  function After(a: Agent, run: seq<Action>): Agent {
    Play(a, run).agent
  }

  ghost predicate UpTo(run: seq<Action>, now: int) {
    && (forall i, j :: 0 <= i < j < |run| ==> run[i].at <= run[j].at)
    && (forall i :: 0 <= i < |run| ==> run[i].at <= now)
  }

  predicate TakesEffect(a: Agent, x: Action) {
    x.Change? && EditAllowed(a, x.mode, x.start, x.end)
  }

  // The position of the last edit that took effect, among the actions from the given one on.
  function LastEdit(a: Agent, run: seq<Action>, from: nat): (last: Option<nat>)
    requires from <= |run|
    ensures last.Some? ==> from <= last.value < |run| && run[last.value].Change?
  {
    var n := |run| - 1;
    if from == |run| then None
    else if TakesEffect(After(a, run[..n]), run[n]) then Some(n)
    else LastEdit(a, run[..n], from)
  }

  ghost predicate Unedited(a: Agent, run: seq<Action>) {
    LastEdit(a, run, 0) == None
  }

  ghost predicate MeasuredOnly(run: seq<Action>) {
    forall i :: 0 <= i < |run| && (run[i].Message? || run[i].Save?) ==> run[i].measured in {Green, Amber, Red}
  }

  // --- Each window is enabled and disabled at most once --------------------------------------------

  function Stage(a: Agent): nat {
    if a.mode then 1 else if a.start.Some? && a.end.Some? then 2 else 0
  }

  // How many tasks of the run took effect.
  function Enables(a: Agent, run: seq<Action>): nat {
    if run == [] then 0
    else
      var last, before := run[|run| - 1], run[..|run| - 1];
      Enables(a, before) + (if last.RunEnable? && Due(After(a, before), last.at) then 1 else 0)
  }

  function Disables(a: Agent, run: seq<Action>): nat {
    if run == [] then 0
    else
      var last, before := run[|run| - 1], run[..|run| - 1];
      Disables(a, before) + (if last.RunDisable? && Expired(After(a, before), last.at) then 1 else 0)
  }

  // Main result: in whatever order and however often the tasks run, a window that nobody edits is
  // enabled at most once and disabled at most once: every task that takes effect lowers the stage.
  lemma {:induction false} OneEnableOneDisable(a: Agent, run: seq<Action>)
    requires Unedited(a, run) && (!a.mode ==> (a.start.Some? <==> a.end.Some?))
    ensures var b := After(a, run);
            && (!b.mode ==> (b.start.Some? <==> b.end.Some?))
            && Enables(a, run) + Disables(a, run) + Stage(b) <= Stage(a)
            && Enables(a, run) <= 1 && Disables(a, run) <= 1
            && (Enables(a, run) == 1 ==> b.mode || Stage(b) == 0)
            && (Disables(a, run) == 1 ==> Stage(b) == 0)
  {
    if run != [] {
      OneEnableOneDisable(a, run[..|run| - 1]);
    }
  }

  // --- Late tasks do not show ------------------------------------------------------------------------

  // What is_in_maintenance answers at t right after an edit, and the end of the window it sets.
  function EditAnswer(x: Action, t: int): bool
    requires x.Change?
  {
    if x.mode then x.end.Some? && t < x.end.value
    else x.start.Some? && x.end.Some? && x.start.value <= t <= x.end.value
  }

  // What the agent read after the first actions, or the last edit since then, answers at t; and its end.
  function Answer(a: Agent, run: seq<Action>, from: nat, t: int): bool
    requires from <= |run|
  {
    match LastEdit(a, run, from)
    case None => IsInMaintenance(After(a, run[..from]), t)
    case Some(k) => EditAnswer(run[k], t)
  }

  function AnswerEnd(a: Agent, run: seq<Action>, from: nat): Option<int>
    requires from <= |run|
  {
    match LastEdit(a, run, from)
    case None => After(a, run[..from]).end
    case Some(k) => run[k].end
  }

  // Main result: since the first actions of a run, only the last edit matters; whenever the tasks and
  // messages come, is_in_maintenance answers at t as that edit made it, except when t is exactly the end
  // of its window.
  lemma {:induction false} OnlyEditsShow(a: Agent, run: seq<Action>, from: nat, t: int)
    requires from <= |run| && UpTo(run, t) && AnswerEnd(a, run, from) != Some(t)
    ensures IsInMaintenance(After(a, run), t) == Answer(a, run, from, t)
    ensures After(a, run).end in {AnswerEnd(a, run, from), None}
  {
    if from == |run| {
      assert run[..from] == run;
    } else {
      var before, last := run[..|run| - 1], run[|run| - 1];
      if !TakesEffect(After(a, before), last) {
        assert before[..from] == run[..from];
        OnlyEditsShow(a, before, from, t);
        EnableChangesOnlyTheEnd(After(a, before), last.at, t);
        DisableChangesOnlyTheEnd(After(a, before), last.at, t);
      }
    }
  }

  lemma TasksDoNotShow(a: Agent, run: seq<Action>, t: int)
    requires Unedited(a, run) && UpTo(run, t) && a.end != Some(t)
    ensures IsInMaintenance(After(a, run), t) == IsInMaintenance(a, t)
    ensures After(a, run).end in {a.end, None}
  {
    assert run[..0] == [];
    OnlyEditsShow(a, run, 0, t);
  }

  // --- The health that is shown ----------------------------------------------------------------------

  // Health says maintenance only while the mode is on, and does so until the window has expired.
  ghost predicate HealthAgrees(a: Agent, now: int) {
    && (a.health == InMaintenance ==> a.mode)
    && (a.mode && !Reached(a.end, now) ==> a.health == InMaintenance)
  }

  lemma AgreesLater(a: Agent, now: int, later: int)
    requires now <= later && HealthAgrees(a, now)
    ensures HealthAgrees(a, later)
  {
  }

  // A save loses the shown health exactly when maintenance has begun since the read.
  ghost predicate SafeSave(w: World, x: Action) {
    x.Save? && x.handler in w.seen ==>
      IsInMaintenance(w.seen[x.handler], x.at) || !(w.agent.mode && IsInMaintenance(w.agent, x.at))
  }

  lemma StepAgreesIffSafe(w: World, x: Action)
    requires HealthAgrees(w.agent, x.at)
    requires x.Message? || x.Save? ==> x.measured in {Green, Amber, Red}
    ensures HealthAgrees(Step(w, x).agent, x.at) <==> SafeSave(w, x)
  {
  }

  // The shown health agrees after every step of the run.
  ghost predicate AgreesThroughout(run: seq<Action>) {
    run == [] ||
    (AgreesThroughout(run[..|run| - 1]) && HealthAgrees(After(NEW_AGENT, run), run[|run| - 1].at))
  }

  // Every save of the run is safe when it happens.
  ghost predicate SavesSafe(run: seq<Action>) {
    run == [] ||
    (SavesSafe(run[..|run| - 1]) && SafeSave(Play(NEW_AGENT, run[..|run| - 1]), run[|run| - 1]))
  }

  // Main result: over every interleaving of jobs, edits, reads and saves, the shown health agrees after
  // every step exactly when no save has been overtaken by the beginning of maintenance.
  lemma {:induction false} AgreesIffSavesSafe(run: seq<Action>, now: int)
    requires UpTo(run, now) && MeasuredOnly(run)
    ensures AgreesThroughout(run) <==> SavesSafe(run)
    ensures AgreesThroughout(run) ==> HealthAgrees(After(NEW_AGENT, run), now)
  {
    if run != [] {
      var before, last := run[..|run| - 1], run[|run| - 1];
      AgreesIffSavesSafe(before, last.at);
      if AgreesThroughout(before) {
        StepAgreesIffSafe(Play(NEW_AGENT, before), last);
      }
      if HealthAgrees(After(NEW_AGENT, run), last.at) {
        AgreesLater(After(NEW_AGENT, run), last.at, now);
      }
    }
  }

  ghost predicate NoLateSaves(run: seq<Action>) {
    forall i :: 0 <= i < |run| && run[i].Save? ==> i > 0 && run[i - 1].Read? && run[i - 1].handler == run[i].handler
  }

  lemma {:induction false} NoLateSavesAreSafe(run: seq<Action>)
    requires NoLateSaves(run)
    ensures SavesSafe(run)
  {
    if run != [] {
      var before, last := run[..|run| - 1], run[|run| - 1];
      NoLateSavesAreSafe(before);
      if last.Save? {
        assert before[|before| - 1].Read? && before[|before| - 1].handler == last.handler;
        assert Play(NEW_AGENT, before).seen[last.handler] == Play(NEW_AGENT, before).agent;
      }
    }
  }

  // Main result: in every reachable state, although messages keep arriving, if each is handled in one
  // step or saved right after its read.
  lemma HealthAlwaysAgrees(run: seq<Action>, now: int)
    requires UpTo(run, now) && MeasuredOnly(run) && NoLateSaves(run)
    ensures HealthAgrees(After(NEW_AGENT, run), now)
  {
    NoLateSavesAreSafe(run);
    AgreesIffSavesSafe(run, now);
  }

  // An edit between the read and the save of a handler is enough to lose it.
  lemma StaleSaveReachable(end: int)
    requires end > 0
    ensures var run := [Read(0, 0), Change(0, true, None, Some(end)), Save(0, 0, Green)];
            UpTo(run, 0) && MeasuredOnly(run) && !HealthAgrees(After(NEW_AGENT, run), 0)
  {
    var run := [Read(0, 0), Change(0, true, None, Some(end)), Save(0, 0, Green)];
    assert run[..2][..1] == run[..1] && run[..1][..0] == [];
    assert Play(NEW_AGENT, run[..1]) == World(NEW_AGENT, map[0 := NEW_AGENT]);
    assert After(NEW_AGENT, run[..2]) == Agent(true, Some(0), Some(end), InMaintenance);
  }

  // --- What the jobs achieve in every run ------------------------------------------------------------

  ghost predicate Formed(a: Agent) {
    (a.mode ==> a.start.Some? && a.end.Some?) && (a.start.Some? <==> a.end.Some?)
  }

  lemma {:induction false} AlwaysFormed(run: seq<Action>)
    ensures Formed(After(NEW_AGENT, run))
  {
    if run != [] {
      AlwaysFormed(run[..|run| - 1]);
    }
  }

  lemma PlayAppend(a: Agent, run: seq<Action>, x: Action)
    ensures Play(a, run + [x]) == Step(Play(a, run), x)
  {
    assert (run + [x])[..|run + [x]| - 1] == run;
  }

  // Main result: in every run whose saves are safe, once the enabling job has been executed an agent in
  // maintenance has its mode on and shows it, except at exactly the end of its window.
  lemma EnableCatchesUp(run: seq<Action>, now: int)
    requires UpTo(run, now) && MeasuredOnly(run) && SavesSafe(run)
    ensures var b := After(NEW_AGENT, run + [RunEnable(now)]);
            IsInMaintenance(b, now) && b.end != Some(now) ==> b.mode && b.health == InMaintenance
  {
    AgreesIffSavesSafe(run, now);
    PlayAppend(NEW_AGENT, run, RunEnable(now));
    EnableAchieves(After(NEW_AGENT, run), now);
  }

  // Main result: and once the disabling job has been executed, no agent keeps a window whose end has been
  // reached, or shows maintenance outside one.
  lemma DisableCatchesUp(run: seq<Action>, now: int)
    requires UpTo(run, now) && MeasuredOnly(run) && SavesSafe(run)
    ensures var b := After(NEW_AGENT, run + [RunDisable(now)]);
            && (b.end.Some? ==> now < b.end.value)
            && (b.health == InMaintenance <==> b.mode)
  {
    AgreesIffSavesSafe(run, now);
    AlwaysFormed(run);
    PlayAppend(NEW_AGENT, run, RunDisable(now));
    DisableAchieves(After(NEW_AGENT, run), now);
  }

  // The last word on the health that is shown.
  function Shown(a: Agent, run: seq<Action>): Health {
    if run == [] then a.health
    else
      var before, last := run[..|run| - 1], run[|run| - 1];
      var w := Play(a, before);
      match last
      case RunEnable(at) =>
        if !w.agent.mode && IsInMaintenance(w.agent, at) && w.agent.end != Some(at) then InMaintenance
        else Shown(a, before)
      case RunDisable(at) =>
        if w.agent.end.Some? && w.agent.end.value <= at && (w.agent.mode || w.agent.start.Some?) then Unset
        else Shown(a, before)
      case Message(at, measured) => if IsInMaintenance(w.agent, at) then Shown(a, before) else measured
      case Read(_, _) => Shown(a, before)
      case Save(at, handler, measured) =>
        if handler in w.seen && !IsInMaintenance(w.seen[handler], at) then measured else Shown(a, before)
      case Change(_, mode, _, _) =>
        if !TakesEffect(w.agent, last) then Shown(a, before) else if mode then InMaintenance else Unset
  }

  lemma {:induction false} HealthIsLastWord(a: Agent, run: seq<Action>)
    ensures After(a, run).health == Shown(a, run)
  {
    if run != [] {
      HealthIsLastWord(a, run[..|run| - 1]);
    }
  }
}
