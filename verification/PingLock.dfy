/** The cache lock that keeps one ping cycle per priority group (tasks.py), as a state machine over
    starts, ends, kills and the passing of time. */
module PingLock {

  datatype Limits = Limits(lockTimeout: int, hardLimit: int)

  // The values in the source.
  const LIMITS := Limits(70, 60)

  type TaskId = nat
  type Group = string

  // The owner is not stored in the cache: it is recorded here to say whose lock is deleted.
  datatype Lock = Lock(owner: TaskId, expiry: int)

  // A task inside its critical section; the worker kills it once the deadline has passed.
  datatype Task = Task(group: Group, deadline: int)

  datatype State = State(now: int, locks: map<Group, Lock>, inside: map<TaskId, Task>, started: set<TaskId>)

  datatype Action =
    | Start(id: TaskId, group: Group, began: int)  // cache.add, by a task whose time limit runs since began
    | End(id: TaskId)                              // return, soft time limit or exception: through finally
    | Kill(id: TaskId)                             // hard time limit or a dead worker: finally is skipped
    | Tick(now: int)

  function Init(): State {
    State(0, map[], map[], {})
  }

  predicate Held(s: State, group: Group) {
    group in s.locks && s.now < s.locks[group].expiry
  }

  predicate Enabled(lim: Limits, s: State, a: Action) {
    match a
    case Start(id, _, began) => id !in s.started && began <= s.now <= began + lim.hardLimit
    case End(id) => id in s.inside
    case Kill(id) => id in s.inside
    case Tick(now) => s.now <= now && forall id :: id in s.inside ==> now <= s.inside[id].deadline
  }

  // An action that is not enabled does not happen.
  function Step(lim: Limits, s: State, a: Action): State {
    if !Enabled(lim, s, a) then s else Effect(lim, s, a)
  }

  function Effect(lim: Limits, s: State, a: Action): State
    requires Enabled(lim, s, a)
  {
    match a
    case Start(id, group, began) =>
      if Held(s, group) then s.(started := s.started + {id})
      else s.(locks := s.locks[group := Lock(id, s.now + lim.lockTimeout)],
              inside := s.inside[id := Task(group, began + lim.hardLimit)],
              started := s.started + {id})
    case End(id) => s.(locks := s.locks - {s.inside[id].group}, inside := s.inside - {id})
    case Kill(id) => s.(inside := s.inside - {id})
    case Tick(now) => s.(now := now)
  }

  function After(lim: Limits, run: seq<Action>): State {
    if run == [] then Init() else Step(lim, After(lim, run[..|run| - 1]), run[|run| - 1])
  }

  // Every task inside owns the live lock of its group, and the lock outlives it.
  ghost predicate Owned(s: State) {
    && s.inside.Keys <= s.started
    && forall id :: id in s.inside ==>
         var task := s.inside[id];
         && task.group in s.locks && s.locks[task.group].owner == id
         && s.now <= task.deadline < s.locks[task.group].expiry
  }

  ghost predicate Exclusive(s: State) {
    forall a, b :: a in s.inside && b in s.inside && s.inside[a].group == s.inside[b].group ==> a == b
  }

  lemma StepKeepsOwnership(lim: Limits, s: State, a: Action)
    requires lim.lockTimeout > lim.hardLimit && Owned(s)
    ensures Owned(Step(lim, s, a))
  {
    var s' := Step(lim, s, a);
    if a.End? && a.id in s.inside {
      assert forall id :: id in s'.inside ==> s'.inside[id].group != s.inside[a.id].group;
    }
  }

  lemma {:induction false} RunKeepsOwnership(lim: Limits, run: seq<Action>)
    requires lim.lockTimeout > lim.hardLimit
    ensures Owned(After(lim, run))
  {
    if run != [] {
      RunKeepsOwnership(lim, run[..|run| - 1]);
      StepKeepsOwnership(lim, After(lim, run[..|run| - 1]), run[|run| - 1]);
    }
  }

  // Main result: over every interleaving at most one task per group is inside, and the finally clause
  // deletes a live lock that is the ending task's own.
  lemma OneTaskPerGroup(lim: Limits, run: seq<Action>)
    requires lim.lockTimeout > lim.hardLimit
    ensures Exclusive(After(lim, run))
    ensures var s := After(lim, run);
            forall id :: id in s.inside ==>
              Held(s, s.inside[id].group) && s.locks[s.inside[id].group].owner == id
  {
    RunKeepsOwnership(lim, run);
  }

  lemma AfterAppend(lim: Limits, run: seq<Action>, a: Action)
    ensures After(lim, run + [a]) == Step(lim, After(lim, run), a)
  {
    assert (run + [a])[..|run + [a]| - 1] == run;
  }

  ghost predicate LocksBounded(lim: Limits, s: State) {
    forall group :: group in s.locks ==> s.locks[group].expiry <= s.now + lim.lockTimeout
  }

  lemma {:induction false} LocksExpire(lim: Limits, run: seq<Action>)
    ensures LocksBounded(lim, After(lim, run))
  {
    if run != [] {
      LocksExpire(lim, run[..|run| - 1]);
      LocksExpireStep(lim, After(lim, run[..|run| - 1]), run[|run| - 1]);
    }
  }

  lemma LocksExpireStep(lim: Limits, s: State, a: Action)
    requires LocksBounded(lim, s)
    ensures LocksBounded(lim, Step(lim, s, a))
  {
  }

  // A task that starts gets in exactly when its group's lock is not held, and then holds it itself.
  lemma GetsInExactly(lim: Limits, run: seq<Action>, id: TaskId, group: Group, began: int)
    requires 0 < lim.lockTimeout && Enabled(lim, After(lim, run), Start(id, group, began))
    requires id !in After(lim, run).inside
    ensures var s, s' := After(lim, run), After(lim, run + [Start(id, group, began)]);
            && (id in s'.inside <==> !Held(s, group))
            && Held(s', group)
            && (id in s'.inside ==> s'.locks[group].owner == id)
  {
    AfterAppend(lim, run, Start(id, group, began));
  }

  // Main result: the group is free again as soon as its task ends, and after a kill as soon as the lock
  // timeout is over: nothing blocks it for longer.
  lemma FreeAgain(lim: Limits, run: seq<Action>, id: TaskId, group: Group)
    requires id in After(lim, run).inside && After(lim, run).inside[id].group == group
    ensures !Held(After(lim, run + [End(id)]), group)
  {
    AfterAppend(lim, run, End(id));
  }

  lemma KillKeepsLock(lim: Limits, run: seq<Action>, id: TaskId)
    requires id in After(lim, run).inside
    ensures var s, s' := After(lim, run), After(lim, run + [Kill(id)]);
            s'.inside == s.inside - {id} && s'.locks == s.locks
  {
    AfterAppend(lim, run, Kill(id));
  }

  lemma FreeAfterTimeout(lim: Limits, run: seq<Action>, now: int, group: Group)
    requires Enabled(lim, After(lim, run), Tick(now)) && After(lim, run).now + lim.lockTimeout <= now
    ensures !Held(After(lim, run + [Tick(now)]), group)
  {
    AfterAppend(lim, run, Tick(now));
    LocksExpire(lim, run);
  }

  ghost predicate AlwaysExclusive(lim: Limits) {
    forall run :: Exclusive(After(lim, run))
  }

  // The inequality is exact: a lock that can expire under a running task lets a second one in.
  lemma ExclusiveIffLockOutlives(lim: Limits)
    requires lim.lockTimeout >= 0
    ensures AlwaysExclusive(lim) <==> lim.lockTimeout > lim.hardLimit
  {
    if lim.lockTimeout > lim.hardLimit {
      forall run ensures Exclusive(After(lim, run)) {
        OneTaskPerGroup(lim, run);
      }
    } else {
      var t := lim.lockTimeout;
      var run1 := [Start(0, "g", 0)];
      var run2 := run1 + [Tick(t)];
      var run3 := run2 + [Start(1, "g", t)];
      assert run1[..0] == [] && run2[..1] == run1 && run3[..2] == run2;
      assert After(lim, run1) == State(0, map["g" := Lock(0, t)], map[0 := Task("g", lim.hardLimit)], {0});
      assert After(lim, run2) == After(lim, run1).(now := t);
      var s := After(lim, run3);
      assert 0 in s.inside && 1 in s.inside && s.inside[0].group == s.inside[1].group;
    }
  }

  lemma SourceLimitsExclude(run: seq<Action>)
    ensures Exclusive(After(LIMITS, run))
  {
    OneTaskPerGroup(LIMITS, run);
  }
}
