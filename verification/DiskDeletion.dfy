/** Deleting the disks and partitions that stay missing (disk_monitoring_service.py). */
module DiskDeletion {
  import opened Countdown

  datatype Limits = Limits(disks: int, partitions: int)

  // One device: its disks, its partitions with the disk each lies on, and the pending rows.
  datatype State = State(
    disks: set<Uuid>, partitions: map<Uuid, Uuid>, pendingDisks: Pending, pendingPartitions: Pending)

  datatype Report = Report(disks: set<Uuid>, partitions: set<Uuid>)

  function DoomedDisks(lim: Limits, s: State, r: Report): set<Uuid> {
    Doomed(lim.disks, s.pendingDisks - r.disks, s.disks - r.disks)
  }

  function DoomedPartitions(lim: Limits, s: State, r: Report): set<Uuid> {
    Doomed(lim.partitions, s.pendingPartitions - r.partitions, s.partitions.Keys - r.partitions)
  }

  function AfterDisks(lim: Limits, s: State, r: Report): State {
    var doomed := DoomedDisks(lim, s, r);
    s.(disks := s.disks - doomed,
       partitions := Without(s.partitions, doomed),
       pendingDisks := Counted(lim.disks, s.pendingDisks - r.disks, s.disks - r.disks),
       pendingPartitions := s.pendingPartitions - r.partitions)
  }

  // The partition loop looks a doomed partition up again; if its disk has just gone, it finds nothing
  // and the pass ends with an error.
  predicate Crashes(lim: Limits, s: State, r: Report) {
    exists p :: p in DoomedPartitions(lim, s, r) && s.partitions[p] in DoomedDisks(lim, s, r)
  }

  function Pass(lim: Limits, s: State, r: Report): State {
    var s' := AfterDisks(lim, s, r);
    s'.(partitions := s'.partitions - DoomedPartitions(lim, s, r),
        pendingPartitions := Counted(lim.partitions, s'.pendingPartitions, s.partitions.Keys - r.partitions))
  }

  // What a pass that ends with the error leaves: the disks are handled, of the missing partitions only
  // some, and among the others is one that is due but gone.
  ghost predicate Interrupted(lim: Limits, s: State, r: Report, s': State, handled: set<Uuid>) {
    var after, missing := AfterDisks(lim, s, r), s.partitions.Keys - r.partitions;
    && StoppedAt(lim.partitions, after.partitions, after.pendingPartitions, missing, handled)
    && s' == after.(partitions := after.partitions - Doomed(lim.partitions, after.pendingPartitions, handled),
                    pendingPartitions := Counted(lim.partitions, after.pendingPartitions, handled))
  }

  ghost predicate StoppedAt(
    limit: int, partitions: map<Uuid, Uuid>, pending: Pending, missing: set<Uuid>, handled: set<Uuid>)
  {
    && handled < missing && Doomed(limit, pending, handled) <= partitions.Keys
    && exists u :: u in Doomed(limit, pending, missing) && u !in handled && u !in partitions
  }

  class Service {
    const lim: Limits
    var disks: set<Uuid>
    var partitions: map<Uuid, Uuid>
    var pendingDisks: Pending
    var pendingPartitions: Pending

    constructor (lim: Limits, disks: set<Uuid>, partitions: map<Uuid, Uuid>)
      ensures this.lim == lim && View() == State(disks, partitions, map[], map[])
    {
      this.lim, this.disks, this.partitions := lim, disks, partitions;
      pendingDisks, pendingPartitions := map[], map[];
    }

    ghost function View(): State
      reads this
    {
      State(disks, partitions, pendingDisks, pendingPartitions)
    }

    method HandleDeletions(r: Report) returns (deletedDisks: seq<Uuid>, deletedPartitions: seq<Uuid>, crashed: bool)
      modifies this
      ensures crashed == Crashes(lim, old(View()), r)
      ensures Lists(deletedDisks, DoomedDisks(lim, old(View()), r))
      ensures disks == AfterDisks(lim, old(View()), r).disks
      ensures pendingDisks == AfterDisks(lim, old(View()), r).pendingDisks
      ensures !crashed ==> View() == Pass(lim, old(View()), r)
      ensures crashed ==> exists handled :: Interrupted(lim, old(View()), r, View(), handled)
      ensures !crashed ==> Lists(deletedPartitions, DoomedPartitions(lim, old(View()), r))
    {
      pendingDisks := pendingDisks - r.disks;
      pendingPartitions := pendingPartitions - r.partitions;
      var missingDisks, missingPartitions := disks - r.disks, partitions.Keys - r.partitions;
      deletedDisks := HandleMissingDisks(missingDisks);
      ghost var after := View();
      deletedPartitions, crashed := HandleMissingPartitions(missingPartitions);
      assert after.partitions.Keys * DoomedPartitions(lim, old(View()), r)
             == DoomedPartitions(lim, old(View()), r) - (set p <- DoomedPartitions(lim, old(View()), r)
                                                             | old(partitions)[p] in DoomedDisks(lim, old(View()), r));
      if crashed {
        ghost var handled :| HandledPartitions(after, missingPartitions, handled);
        assert Interrupted(lim, old(View()), r, View(), handled);
      }
    }

    // The partition loop stopped after handling some of the missing partitions.
    ghost predicate HandledPartitions(before: State, missing: set<Uuid>, handled: set<Uuid>)
      reads this
    {
      && StoppedAt(lim.partitions, before.partitions, before.pendingPartitions, missing, handled)
      && partitions == before.partitions - Doomed(lim.partitions, before.pendingPartitions, handled)
      && pendingPartitions == Counted(lim.partitions, before.pendingPartitions, handled)
    }

    method HandleMissingDisks(missing: set<Uuid>) returns (deleted: seq<Uuid>)
      requires missing <= disks
      modifies this
      ensures var doomed := Doomed(lim.disks, old(pendingDisks), missing);
              && Lists(deleted, doomed)
              && disks == old(disks) - doomed
              && partitions == Without(old(partitions), doomed)
              && pendingDisks == Counted(lim.disks, old(pendingDisks), missing)
              && pendingPartitions == old(pendingPartitions)
    {
      deleted := [];
      var todo := missing;
      ghost var start := View();
      while todo != {}
        invariant todo <= missing && DisksHandled(lim, start, missing - todo, View(), deleted)
        decreases todo
      {
        var u :| u in todo;
        DisksHandledOneMore(lim, start, missing - todo, u, View(), deleted);
        assert missing - todo + {u} == missing - (todo - {u});
        if u !in pendingDisks {
          pendingDisks := pendingDisks[u := 0];
        } else if pendingDisks[u] + 1 >= lim.disks {
          disks := disks - {u};
          partitions := Without(partitions, {u});
          deleted := deleted + [u];
          pendingDisks := pendingDisks - {u};
        } else {
          pendingDisks := pendingDisks[u := pendingDisks[u] + 1];
        }
        todo := todo - {u};
      }
      assert missing - todo == missing;
    }

    method HandleMissingPartitions(missing: set<Uuid>) returns (deleted: seq<Uuid>, crashed: bool)
      modifies this
      ensures disks == old(disks) && pendingDisks == old(pendingDisks)
      ensures crashed ==> exists handled :: HandledPartitions(old(View()), missing, handled)
      ensures var doomed := Doomed(lim.partitions, old(pendingPartitions), missing);
              && (crashed <==> !(doomed <= old(partitions).Keys))
              && (!crashed ==>
                    && Lists(deleted, doomed)
                    && partitions == old(partitions) - doomed
                    && pendingPartitions == Counted(lim.partitions, old(pendingPartitions), missing))
    {
      deleted, crashed := [], false;
      var todo := missing;
      ghost var start := View();
      while todo != {}
        invariant todo <= missing && PartitionsHandled(lim, start, missing - todo, View(), deleted)
        decreases todo
      {
        var u :| u in todo;
        PartitionsHandledOneMore(lim, start, missing - todo, u, View(), deleted);
        assert missing - todo + {u} == missing - (todo - {u});
        if u !in pendingPartitions {
          pendingPartitions := pendingPartitions[u := 0];
        } else if pendingPartitions[u] + 1 >= lim.partitions {
          if u !in partitions {
            StoppedThere(lim, start, missing, missing - todo, u, View(), deleted);
            assert HandledPartitions(start, missing, missing - todo);
            return deleted, true;
          }
          partitions := partitions - {u};
          deleted := deleted + [u];
          pendingPartitions := pendingPartitions - {u};
        } else {
          pendingPartitions := pendingPartitions[u := pendingPartitions[u] + 1];
        }
        todo := todo - {u};
      }
      assert missing - todo == missing;
    }
  }

  // ---------------------------------------------------------------------------------------------
  // The two loops, after the missing uuids in done
  // ---------------------------------------------------------------------------------------------

  ghost predicate DisksHandled(lim: Limits, start: State, done: set<Uuid>, s: State, deleted: seq<Uuid>) {
    var gone := Doomed(lim.disks, start.pendingDisks, done);
    && s == start.(disks := start.disks - gone, partitions := Without(start.partitions, gone),
                   pendingDisks := Counted(lim.disks, start.pendingDisks, done))
    && Lists(deleted, gone)
  }

  lemma DisksHandledOneMore(lim: Limits, start: State, done: set<Uuid>, u: Uuid, s: State, deleted: seq<Uuid>)
    requires DisksHandled(lim, start, done, s, deleted) && u !in done
    ensures var s' := s.(pendingDisks := Touched(lim.disks, s.pendingDisks, u));
            if u in s.pendingDisks && s.pendingDisks[u] + 1 >= lim.disks
            then DisksHandled(lim, start, done + {u},
                              s'.(disks := s.disks - {u}, partitions := Without(s.partitions, {u})), deleted + [u])
            else DisksHandled(lim, start, done + {u}, s', deleted)
  {
    TouchedStep(lim.disks, start.pendingDisks, done, u);
    ListsOneMore(deleted, Doomed(lim.disks, start.pendingDisks, done), u);
    WithoutOneMore(start.partitions, Doomed(lim.disks, start.pendingDisks, done), u);
  }

  ghost predicate PartitionsHandled(lim: Limits, start: State, done: set<Uuid>, s: State, deleted: seq<Uuid>) {
    var gone := Doomed(lim.partitions, start.pendingPartitions, done);
    && gone <= start.partitions.Keys
    && s == start.(partitions := start.partitions - gone,
                   pendingPartitions := Counted(lim.partitions, start.pendingPartitions, done))
    && Lists(deleted, gone)
  }

  lemma PartitionsHandledOneMore(lim: Limits, start: State, done: set<Uuid>, u: Uuid, s: State, deleted: seq<Uuid>)
    requires PartitionsHandled(lim, start, done, s, deleted) && u !in done
    ensures var s' := s.(pendingPartitions := Touched(lim.partitions, s.pendingPartitions, u));
            if u in s.pendingPartitions && s.pendingPartitions[u] + 1 >= lim.partitions
            then u in s.partitions ==>
              PartitionsHandled(lim, start, done + {u}, s'.(partitions := s.partitions - {u}), deleted + [u])
            else PartitionsHandled(lim, start, done + {u}, s', deleted)
  {
    TouchedStep(lim.partitions, start.pendingPartitions, done, u);
    ListsOneMore(deleted, Doomed(lim.partitions, start.pendingPartitions, done), u);
  }

  // A due partition that is gone already stops the loop.
  lemma StoppedThere(
    lim: Limits, start: State, missing: set<Uuid>, done: set<Uuid>, u: Uuid, s: State, deleted: seq<Uuid>)
    requires PartitionsHandled(lim, start, done, s, deleted) && done <= missing && u in missing - done
    requires u in s.pendingPartitions && s.pendingPartitions[u] + 1 >= lim.partitions && u !in s.partitions
    ensures StoppedAt(lim.partitions, start.partitions, start.pendingPartitions, missing, done)
    ensures !(Doomed(lim.partitions, start.pendingPartitions, missing) <= start.partitions.Keys)
  {
    TouchedStep(lim.partitions, start.pendingPartitions, done, u);
    assert u in Doomed(lim.partitions, start.pendingPartitions, missing);
  }
}
