/** Deleting the network cards whose ports stay missing (network_monitoring_service.py). */
module PortDeletion {
  import opened Countdown

  // One device: its cards, its ports with the card each belongs to, and the pending rows.
  datatype State = State(nics: set<Uuid>, ports: map<Uuid, Uuid>, pending: Pending)

  function DoomedPorts(limit: int, s: State, known: set<Uuid>): set<Uuid> {
    Doomed(limit, s.pending - known, s.ports.Keys - known)
  }

  function NicsOf(ports: map<Uuid, Uuid>, some: set<Uuid>): set<Uuid> {
    set p | p in some && p in ports :: ports[p]
  }

  function DeletedNics(limit: int, s: State, known: set<Uuid>): set<Uuid> {
    NicsOf(s.ports, DoomedPorts(limit, s, known))
  }

  function Pass(limit: int, s: State, known: set<Uuid>): State {
    var gone := DeletedNics(limit, s, known);
    State(s.nics - gone, Without(s.ports, gone), Counted(limit, s.pending - known, s.ports.Keys - known))
  }

  // One missing port.
  function HandleOne(limit: int, s: State, deleted: seq<Uuid>, u: Uuid): (State, seq<Uuid>) {
    var s' := s.(pending := Touched(limit, s.pending, u));
    if u in s.pending && s.pending[u] + 1 >= limit && u in s.ports
    then (s'.(nics := s.nics - {s.ports[u]}, ports := Without(s.ports, {s.ports[u]})), deleted + [s.ports[u]])
    else (s', deleted)
  }

  class Service {
    const limit: int
    var nics: set<Uuid>
    var ports: map<Uuid, Uuid>
    var pending: Pending

    constructor (limit: int, nics: set<Uuid>, ports: map<Uuid, Uuid>)
      ensures this.limit == limit && View() == State(nics, ports, map[])
    {
      this.limit, this.nics, this.ports, pending := limit, nics, ports, map[];
    }

    ghost function View(): State
      reads this
    {
      State(nics, ports, pending)
    }

    // Whatever the order of the loop, and however many ports of one card are due together, every card
    // is reported once and takes all of its ports with it.
    method HandlePortDeletions(known: set<Uuid>) returns (deleted: seq<Uuid>)
      modifies this
      ensures View() == Pass(limit, old(View()), known)
      ensures Lists(deleted, DeletedNics(limit, old(View()), known))
    {
      pending := pending - known;
      var todo := ports.Keys - known;
      deleted := [];
      ghost var start, missing := View(), todo;
      while todo != {}
        invariant todo <= missing && Handled(limit, start, missing - todo, View(), deleted)
        decreases todo
      {
        var u :| u in todo;
        HandledOneMore(limit, start, missing - todo, u, View(), deleted);
        assert missing - todo + {u} == missing - (todo - {u});
        deleted := HandleMissingPort(u, deleted);
        todo := todo - {u};
      }
      assert missing - todo == missing;
      HandledAll(limit, old(View()), known, View(), deleted);
    }

    // The body of the loop.
    method HandleMissingPort(u: Uuid, before: seq<Uuid>) returns (deleted: seq<Uuid>)
      modifies this
      ensures (View(), deleted) == HandleOne(limit, old(View()), before, u)
    {
      deleted := before;
      if u !in pending {
        pending := pending[u := 0];
      } else if pending[u] + 1 >= limit {
        if u in ports {
          var nic := ports[u];
          nics := nics - {nic};
          ports := Without(ports, {nic});
          deleted := deleted + [nic];
        }
        pending := pending - {u};
      } else {
        pending := pending[u := pending[u] + 1];
      }
    }
  }

  // The missing ports in done are handled: they are counted, and exactly the cards of those due have
  // been deleted, each reported once.
  ghost predicate Handled(limit: int, start: State, done: set<Uuid>, s: State, deleted: seq<Uuid>) {
    && s.pending == Counted(limit, start.pending, done)
    && Removed(start, NicsOf(start.ports, Doomed(limit, start.pending, done)), s.nics, s.ports, deleted)
  }

  lemma HandledAll(limit: int, start: State, known: set<Uuid>, s: State, deleted: seq<Uuid>)
    requires Handled(limit, start.(pending := start.pending - known), start.ports.Keys - known, s, deleted)
    ensures s == Pass(limit, start, known) && Lists(deleted, DeletedNics(limit, start, known))
  {
  }

  lemma HandledOneMore(limit: int, start: State, done: set<Uuid>, u: Uuid, s: State, deleted: seq<Uuid>)
    requires Handled(limit, start, done, s, deleted) && u in start.ports && u !in done
    ensures var (s', deleted') := HandleOne(limit, s, deleted, u); Handled(limit, start, done + {u}, s', deleted')
  {
    TouchedStep(limit, start.pending, done, u);
    NicsOneMore(start, Doomed(limit, start.pending, done), u, s.nics, s.ports, deleted);
  }

  // Exactly the cards in gone have been deleted so far, and each has been reported once.
  ghost predicate Removed(start: State, gone: set<Uuid>, nics: set<Uuid>, ports: map<Uuid, Uuid>, deleted: seq<Uuid>) {
    nics == start.nics - gone && ports == Without(start.ports, gone) && Lists(deleted, gone)
  }

  // One more due port: its card, if it is still there, goes with all of its ports.
  lemma NicsOneMore(
    start: State, due: set<Uuid>, u: Uuid, nics: set<Uuid>, ports: map<Uuid, Uuid>, deleted: seq<Uuid>)
    requires u in start.ports && Removed(start, NicsOf(start.ports, due), nics, ports, deleted)
    ensures u in ports ==> Removed(start, NicsOf(start.ports, due + {u}),
                                   nics - {ports[u]}, Without(ports, {ports[u]}), deleted + [ports[u]])
    ensures u !in ports ==> Removed(start, NicsOf(start.ports, due + {u}), nics, ports, deleted)
  {
    var gone := NicsOf(start.ports, due);
    assert NicsOf(start.ports, due + {u}) == gone + {start.ports[u]};
    if u in ports {
      ListsOneMore(deleted, gone, ports[u]);
      WithoutOneMore(start.ports, gone, ports[u]);
    } else {
      assert gone + {start.ports[u]} == gone;
    }
  }

  // ---------------------------------------------------------------------------------------------
  // Whole runs, with a fixed inventory
  // ---------------------------------------------------------------------------------------------

  function After(limit: int, start: State, reports: seq<set<Uuid>>): State {
    if reports == [] then start
    else Pass(limit, After(limit, start, reports[..|reports| - 1]), reports[|reports| - 1])
  }

  ghost predicate AnyPortDoomed(limit: int, start: State, reports: seq<set<Uuid>>, nic: Uuid) {
    exists p :: p in start.ports && start.ports[p] == nic && EverDoomed(limit, reports, p)
  }

  // Main result: a card is there until one of its ports has been missed once more often in a row than it
  // survives; the card's ports live as long as the card, and their counters count their misses.
  lemma {:induction false} NicCountdown(limit: int, start: State, reports: seq<set<Uuid>>)
    requires start.pending == map[] && start.ports.Values <= start.nics
    ensures var s := After(limit, start, reports);
            && (forall nic :: nic in s.nics <==> nic in start.nics && !AnyPortDoomed(limit, start, reports, nic))
            && (forall p :: p in s.ports <==> p in start.ports && start.ports[p] in s.nics)
            && (forall p :: p in s.ports ==>
                  s.ports[p] == start.ports[p] && Tracks(limit, s.pending, p, Misses(reports, p)))
  {
    if reports == [] {
      assert forall p :: p in start.ports ==> start.ports[p] in start.ports.Values;
    } else {
      var before, known := reports[..|reports| - 1], reports[|reports| - 1];
      NicCountdown(limit, start, before);
      var s, s' := After(limit, start, before), After(limit, start, reports);
      forall p | p in s.ports
        ensures p in DoomedPorts(limit, s, known) <==> EverDoomed(limit, reports, p)
        ensures p in s'.ports ==> Tracks(limit, s'.pending, p, Misses(reports, p))
      {
        TracksStep(limit, s.pending, known, s.ports.Keys, p, Misses(before, p));
        assert !EverDoomed(limit, before, p);
      }
      forall nic
        ensures nic in s'.nics <==> nic in start.nics && !AnyPortDoomed(limit, start, reports, nic)
      {
        NicStep(limit, start, reports, nic);
      }
    }
  }

  lemma NicStep(limit: int, start: State, reports: seq<set<Uuid>>, nic: Uuid)
    requires reports != []
    requires var before, known := reports[..|reports| - 1], reports[|reports| - 1];
             var s := After(limit, start, before);
             && (nic in s.nics <==> nic in start.nics && !AnyPortDoomed(limit, start, before, nic))
             && (forall p :: p in s.ports <==> p in start.ports && start.ports[p] in s.nics)
             && (forall p :: p in s.ports ==> s.ports[p] == start.ports[p])
             && (forall p :: p in s.ports ==> (p in DoomedPorts(limit, s, known) <==> EverDoomed(limit, reports, p)))
    ensures nic in After(limit, start, reports).nics
            <==> nic in start.nics && !AnyPortDoomed(limit, start, reports, nic)
  {
    var before, known := reports[..|reports| - 1], reports[|reports| - 1];
    var s := After(limit, start, before);
    if nic in s.nics && nic in DeletedNics(limit, s, known) {
      var p :| p in DoomedPorts(limit, s, known) && p in s.ports && s.ports[p] == nic;
      assert EverDoomed(limit, reports, p);
    }
    if AnyPortDoomed(limit, start, before, nic) {
      var p :| p in start.ports && start.ports[p] == nic && EverDoomed(limit, before, p);
      assert EverDoomed(limit, reports, p);
    }
  }
}
