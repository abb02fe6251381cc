/** The deletion countdown over whole runs of monitoring cycles, with a fixed inventory. */
module DiskDeletionRuns {
  import opened Countdown
  import opened DiskDeletion

  // What a pass may leave behind: after a crash the partitions are only partly handled.
  ghost predicate Outcome(lim: Limits, s: State, r: Report, s': State) {
    if Crashes(lim, s, r) then exists handled :: Interrupted(lim, s, r, s', handled) else s' == Pass(lim, s, r)
  }

  ghost predicate Trace(lim: Limits, start: State, reports: seq<Report>, states: seq<State>) {
    && |states| == |reports| + 1
    && states[0] == start && start.pendingDisks == map[] && start.pendingPartitions == map[]
    && forall i :: 0 <= i < |reports| ==> Outcome(lim, states[i], reports[i], states[i + 1])
  }

  ghost predicate CrashFree(lim: Limits, reports: seq<Report>, states: seq<State>)
    requires |states| == |reports| + 1
  {
    forall i :: 0 <= i < |reports| ==> !Crashes(lim, states[i], reports[i])
  }

  function DiskReports(reports: seq<Report>): seq<set<Uuid>> {
    seq(|reports|, i requires 0 <= i < |reports| => reports[i].disks)
  }

  function PartitionReports(reports: seq<Report>): seq<set<Uuid>> {
    seq(|reports|, i requires 0 <= i < |reports| => reports[i].partitions)
  }

  lemma ReportsInit(reports: seq<Report>)
    requires reports != []
    ensures var n := |reports| - 1;
            && DiskReports(reports)[..n] == DiskReports(reports[..n])
            && PartitionReports(reports)[..n] == PartitionReports(reports[..n])
  {
  }

  // Main result: a disk of the inventory is there until it is missed once more often in a row than it
  // survives, and until then its counter is its consecutive misses less one.
  lemma {:induction false} DiskCountdown(
    lim: Limits, start: State, reports: seq<Report>, states: seq<State>, disk: Uuid)
    requires Trace(lim, start, reports, states) && disk in start.disks
    ensures var s, seen := states[|reports|], DiskReports(reports);
            && (disk in s.disks <==> !EverDoomed(lim.disks, seen, disk))
            && (disk in s.disks ==> Tracks(lim.disks, s.pendingDisks, disk, Misses(seen, disk)))
            && s.disks <= start.disks
  {
    if reports != [] {
      var n := |reports| - 1;
      ReportsInit(reports);
      DiskCountdown(lim, start, reports[..n], states[..n + 1], disk);
      var s, r := states[n], reports[n];
      if disk in s.disks {
        TracksStep(lim.disks, s.pendingDisks, r.disks, s.disks, disk, Misses(DiskReports(reports[..n]), disk));
      }
    }
  }

  // The pass that deletes the disk is the one that brings its misses over the mark.
  lemma DiskDeletedExactly(lim: Limits, start: State, reports: seq<Report>, states: seq<State>, r: Report, disk: Uuid)
    requires Trace(lim, start, reports, states) && disk in start.disks
    ensures disk in DoomedDisks(lim, states[|reports|], r)
            <==> && !EverDoomed(lim.disks, DiskReports(reports), disk)
                 && Misses(DiskReports(reports + [r]), disk) == Survives(lim.disks) + 1
  {
    var s, seen := states[|reports|], DiskReports(reports);
    DiskCountdown(lim, start, reports, states, disk);
    assert DiskReports(reports + [r]) == seen + [r.disks] && (seen + [r.disks])[..|seen|] == seen;
    if disk in s.disks {
      TracksStep(lim.disks, s.pendingDisks, r.disks, s.disks, disk, Misses(seen, disk));
    }
  }

  // The same for partitions, as long as their disk is there and no pass has crashed.
  lemma {:induction false} PartitionCountdown(
    lim: Limits, start: State, reports: seq<Report>, states: seq<State>, part: Uuid)
    requires Trace(lim, start, reports, states) && CrashFree(lim, reports, states)
    requires part in start.partitions && start.partitions.Values <= start.disks
    ensures var s, seen := states[|reports|], PartitionReports(reports);
            && (part in s.partitions <==> start.partitions[part] in s.disks && !EverDoomed(lim.partitions, seen, part))
            && (part in s.partitions ==>
                  && s.partitions[part] == start.partitions[part]
                  && Tracks(lim.partitions, s.pendingPartitions, part, Misses(seen, part)))
            && s.disks <= start.disks
  {
    if reports != [] {
      var n := |reports| - 1;
      ReportsInit(reports);
      PartitionCountdown(lim, start, reports[..n], states[..n + 1], part);
      var s, r := states[n], reports[n];
      if part in s.partitions {
        TracksStep(lim.partitions, s.pendingPartitions, r.partitions, s.partitions.Keys, part,
                   Misses(PartitionReports(reports[..n]), part));
      }
    } else {
      assert start.partitions[part] in start.partitions.Values;
    }
  }

  // Past crashes, which leave some misses uncounted, a partition is never deleted early: it only goes
  // with its disk or after more misses in a row than it survives.
  lemma {:induction false} PartitionNeverEarly(
    lim: Limits, start: State, reports: seq<Report>, states: seq<State>, part: Uuid)
    requires Trace(lim, start, reports, states)
    requires part in start.partitions && start.partitions.Values <= start.disks
    ensures var s, seen, disk := states[|reports|], PartitionReports(reports), start.partitions[part];
            && (part !in s.partitions ==> disk !in s.disks || EverDoomed(lim.partitions, seen, part))
            && (part in s.partitions ==>
                  && s.partitions[part] == disk && disk in s.disks
                  && (part in s.pendingPartitions ==> s.pendingPartitions[part] < Misses(seen, part)))
  {
    if reports == [] {
      assert start.partitions[part] in start.partitions.Values;
    } else {
      var n := |reports| - 1;
      ReportsInit(reports);
      PartitionNeverEarly(lim, start, reports[..n], states[..n + 1], part);
      NeverEarlyStep(lim, states[n], reports[n], states[n + 1], part, Misses(PartitionReports(reports[..n]), part));
    }
  }

  lemma NeverEarlyStep(lim: Limits, s: State, r: Report, s': State, part: Uuid, misses: nat)
    requires Outcome(lim, s, r, s')
    requires part in s.partitions ==>
               s.partitions[part] in s.disks && (part in s.pendingPartitions ==> s.pendingPartitions[part] < misses)
    ensures s'.disks <= s.disks && s'.partitions.Keys <= s.partitions.Keys
    ensures var misses' := if part in r.partitions then 0 else misses + 1;
            part in s.partitions ==>
              && (part !in s'.partitions ==> s.partitions[part] !in s'.disks || misses' > Survives(lim.partitions))
              && (part in s'.partitions ==>
                    && s'.partitions[part] == s.partitions[part] && s.partitions[part] in s'.disks
                    && (part in s'.pendingPartitions ==> s'.pendingPartitions[part] < misses'))
  {
    if Crashes(lim, s, r) {
      var handled :| Interrupted(lim, s, r, s', handled);
    }
  }

  // Both the partition and the disk under it go over their mark in the same pass.
  ghost predicate BothDue(lim: Limits, start: State, reports: seq<Report>, r: Report, part: Uuid) {
    && part in start.partitions
    && !EverDoomed(lim.partitions, PartitionReports(reports), part)
    && !EverDoomed(lim.disks, DiskReports(reports), start.partitions[part])
    && Misses(PartitionReports(reports + [r]), part) == Survives(lim.partitions) + 1
    && Misses(DiskReports(reports + [r]), start.partitions[part]) == Survives(lim.disks) + 1
  }

  // When a pass ends with the error, as long as none before it did.
  lemma CrashExactly(lim: Limits, start: State, reports: seq<Report>, states: seq<State>, r: Report)
    requires Trace(lim, start, reports, states) && CrashFree(lim, reports, states)
    requires start.partitions.Values <= start.disks
    ensures Crashes(lim, states[|reports|], r) <==> exists part :: BothDue(lim, start, reports, r, part)
  {
    var s, seen := states[|reports|], PartitionReports(reports);
    PartitionsFromStart(lim, start, reports, states);
    assert PartitionReports(reports + [r]) == seen + [r.partitions] && (seen + [r.partitions])[..|seen|] == seen;
    forall part | part in start.partitions
      ensures BothDue(lim, start, reports, r, part)
              <==> part in DoomedPartitions(lim, s, r) && s.partitions[part] in DoomedDisks(lim, s, r)
    {
      assert start.partitions[part] in start.partitions.Values;
      PartitionCountdown(lim, start, reports, states, part);
      DiskCountdown(lim, start, reports, states, start.partitions[part]);
      DiskDeletedExactly(lim, start, reports, states, r, start.partitions[part]);
      if part in s.partitions {
        TracksStep(lim.partitions, s.pendingPartitions, r.partitions, s.partitions.Keys, part, Misses(seen, part));
      }
    }
  }

  // Main result: a run is free of the error exactly when its reports never make both due together.
  lemma {:induction false} CrashFreeExactly(lim: Limits, start: State, reports: seq<Report>, states: seq<State>)
    requires Trace(lim, start, reports, states) && start.partitions.Values <= start.disks
    ensures CrashFree(lim, reports, states) <==> NeverBothDue(lim, start, reports)
  {
    if reports != [] {
      var n := |reports| - 1;
      CrashFreeExactly(lim, start, reports[..n], states[..n + 1]);
      NeverBothDueStep(lim, start, reports);
      if CrashFree(lim, reports[..n], states[..n + 1]) {
        CrashExactly(lim, start, reports[..n], states[..n + 1], reports[n]);
      }
    }
  }

  ghost predicate NeverBothDue(lim: Limits, start: State, reports: seq<Report>) {
    forall i, part :: 0 <= i < |reports| ==> !BothDue(lim, start, reports[..i], reports[i], part)
  }

  lemma NeverBothDueStep(lim: Limits, start: State, reports: seq<Report>)
    requires reports != []
    ensures var before, last := reports[..|reports| - 1], reports[|reports| - 1];
            NeverBothDue(lim, start, reports)
            <==> NeverBothDue(lim, start, before) && forall part :: !BothDue(lim, start, before, last, part)
  {
    var before := reports[..|reports| - 1];
    assert forall i :: 0 <= i < |before| ==> before[..i] == reports[..i] && before[i] == reports[i];
  }

  // Past a first error a partition may lag behind its misses, so that it is due later than it should be.
  // What remains: every error needs a partition with more misses than it survives, in the very pass that
  // deletes the disk under it.
  lemma CrashNeeds(lim: Limits, start: State, reports: seq<Report>, states: seq<State>, r: Report)
    returns (part: Uuid)
    requires Trace(lim, start, reports, states) && start.partitions.Values <= start.disks
    requires Crashes(lim, states[|reports|], r)
    ensures part in start.partitions
    ensures Misses(PartitionReports(reports + [r]), part) > Survives(lim.partitions)
    ensures Misses(DiskReports(reports + [r]), start.partitions[part]) == Survives(lim.disks) + 1
    ensures !EverDoomed(lim.disks, DiskReports(reports), start.partitions[part])
  {
    var s, seen := states[|reports|], PartitionReports(reports);
    part :| part in DoomedPartitions(lim, s, r) && s.partitions[part] in DoomedDisks(lim, s, r);
    PartitionsFromStart(lim, start, reports, states);
    assert start.partitions[part] in start.partitions.Values;
    PartitionNeverEarly(lim, start, reports, states, part);
    DiskDeletedExactly(lim, start, reports, states, r, start.partitions[part]);
    assert PartitionReports(reports + [r]) == seen + [r.partitions] && (seen + [r.partitions])[..|seen|] == seen;
  }

  lemma {:induction false} PartitionsFromStart(lim: Limits, start: State, reports: seq<Report>, states: seq<State>)
    requires Trace(lim, start, reports, states)
    ensures states[|reports|].partitions.Keys <= start.partitions.Keys
  {
    if reports != [] {
      var n := |reports| - 1;
      PartitionsFromStart(lim, start, reports[..n], states[..n + 1]);
      if Crashes(lim, states[n], reports[n]) {
        var handled :| Interrupted(lim, states[n], reports[n], states[n + 1], handled);
      }
    }
  }

  // --- The error can happen, whatever the limits -------------------------------------------------

  // The disk is missed in the last d of n reports, its partition in the last p.
  function Blackout(n: nat, d: nat, p: nat): seq<Report> {
    seq(n, i => Report(if i < n - d then {"disk", "other"} else {"other"}, if i < n - p then {"part"} else {}))
  }

  lemma {:induction false} BlackoutMisses(reports: seq<set<Uuid>>, u: Uuid, gone: nat)
    requires forall i :: 0 <= i < |reports| ==> (u in reports[i] <==> i < |reports| - gone)
    requires gone <= |reports|
    ensures Misses(reports, u) == gone
  {
    if gone > 0 {
      BlackoutMisses(reports[..|reports| - 1], u, gone - 1);
    }
  }

  lemma {:induction false} NotDoomedBefore(limit: int, reports: seq<set<Uuid>>, u: Uuid, gone: nat)
    requires forall i :: 0 <= i < |reports| ==> (u in reports[i] <==> i < |reports| - gone)
    requires gone <= |reports| && gone <= Survives(limit)
    ensures !EverDoomed(limit, reports, u)
  {
    BlackoutMisses(reports, u, gone);
    if reports != [] {
      NotDoomedBefore(limit, reports[..|reports| - 1], u, if gone == 0 then 0 else gone - 1);
    }
  }

  // Main result: whatever the limits, some run of reports leads to the error.
  lemma CrashReachable(lim: Limits) returns (start: State, reports: seq<Report>, states: seq<State>, r: Report)
    ensures Trace(lim, start, reports, states) && CrashFree(lim, reports, states)
    ensures Crashes(lim, states[|reports|], r)
  {
    var d, p := Survives(lim.disks), Survives(lim.partitions);
    var n := if d < p then p else d;
    start := State({"disk", "other"}, map["part" := "disk"], map[], map[]);
    reports, r := Blackout(n, d, p), Report({"other"}, {});
    states := Follow(lim, start, reports);
    var all := reports + [r];
    BlackoutMisses(DiskReports(all), "disk", d + 1);
    BlackoutMisses(PartitionReports(all), "part", p + 1);
    NotDoomedBefore(lim.disks, DiskReports(reports), "disk", d);
    NotDoomedBefore(lim.partitions, PartitionReports(reports), "part", p);
    forall i | 0 <= i < n ensures !Crashes(lim, states[i], reports[i]) {
      NoEarlyCrash(lim, start, reports, states, i, d);
    }
    CrashExactly(lim, start, reports, states, r);
    assert BothDue(lim, start, reports, r, "part");
  }

  lemma {:induction false} Follow(lim: Limits, start: State, reports: seq<Report>) returns (states: seq<State>)
    requires start.pendingDisks == map[] && start.pendingPartitions == map[]
    ensures Trace(lim, start, reports, states)
  {
    if reports == [] {
      states := [start];
    } else {
      var before := Follow(lim, start, reports[..|reports| - 1]);
      var next := OutcomeExists(lim, before[|before| - 1], reports[|reports| - 1]);
      states := before + [next];
    }
  }

  lemma OutcomeExists(lim: Limits, s: State, r: Report) returns (s': State)
    ensures Outcome(lim, s, r, s')
  {
    if Crashes(lim, s, r) {
      s' := AfterDisks(lim, s, r);
      assert Counted(lim.partitions, s'.pendingPartitions, {}) == s'.pendingPartitions;
      assert Interrupted(lim, s, r, s', {});
    } else {
      s' := Pass(lim, s, r);
    }
  }

  // The only disk with a partition is not deleted before its last report.
  lemma NoEarlyCrash(lim: Limits, start: State, reports: seq<Report>, states: seq<State>, i: nat, d: nat)
    requires Trace(lim, start, reports, states) && i < |reports|
    requires start.disks == {"disk", "other"} && start.partitions == map["part" := "disk"]
    requires d == Survives(lim.disks) <= |reports|
    requires forall k :: 0 <= k < |reports| ==>
               ("disk" in reports[k].disks <==> k < |reports| - d) && "other" in reports[k].disks
    ensures !Crashes(lim, states[i], reports[i])
  {
    var before, r := reports[..i], reports[i];
    var gone := if i < |reports| - d then 0 else i + 1 - (|reports| - d);
    BlackoutMisses(DiskReports(before + [r]), "disk", gone);
    BlackoutMisses(DiskReports(before + [r]), "other", 0);
    DiskDeletedExactly(lim, start, before, states[..i + 1], r, "disk");
    DiskDeletedExactly(lim, start, before, states[..i + 1], r, "other");
    DiskCountdown(lim, start, before, states[..i + 1], "disk");
    assert DoomedDisks(lim, states[i], r) <= states[i].disks <= start.disks;
  }
}
