/** The PendingDeletion counter shared by disks, partitions and ports: one row per missing uuid. */
module Countdown {
  type Uuid = string

  // missing_count per uuid with a pending row.
  type Pending = map<Uuid, nat>

  // The missing uuids whose counter reaches the limit in this pass; a first miss only adds the row.
  function Doomed(limit: int, pending: Pending, missing: set<Uuid>): set<Uuid> {
    set u <- missing | u in pending && pending[u] + 1 >= limit
  }

  // The pending rows after a pass over the missing uuids.
  function Counted(limit: int, pending: Pending, missing: set<Uuid>): Pending {
    map u | u in pending.Keys + missing && u !in Doomed(limit, pending, missing) ::
      if u !in missing then pending[u] else if u in pending then pending[u] + 1 else 0
  }

  // One missing uuid, as the loops handle it.
  function Touched(limit: int, pending: Pending, u: Uuid): Pending {
    if u !in pending then pending[u := 0]
    else if pending[u] + 1 >= limit then pending - {u}
    else pending[u := pending[u] + 1]
  }

  // Whatever was handled before, handling one more missing uuid extends the outcome by that uuid alone.
  lemma TouchedStep(limit: int, pending: Pending, done: set<Uuid>, u: Uuid)
    requires u !in done
    ensures var counted := Counted(limit, pending, done);
            && (u in counted <==> u in pending) && (u in pending ==> counted[u] == pending[u])
            && Touched(limit, counted, u) == Counted(limit, pending, done + {u})
            && Doomed(limit, pending, done + {u})
               == (if u in pending && pending[u] + 1 >= limit
                   then Doomed(limit, pending, done) + {u} else Doomed(limit, pending, done))
            && u !in Doomed(limit, pending, done)
  {
  }

  // Owned components go with their owners: partitions with disks, ports with cards.
  function Without(owner: map<Uuid, Uuid>, gone: set<Uuid>): map<Uuid, Uuid> {
    map c | c in owner && owner[c] !in gone :: owner[c]
  }

  lemma WithoutOneMore(owner: map<Uuid, Uuid>, gone: set<Uuid>, u: Uuid)
    ensures Without(Without(owner, gone), {u}) == Without(owner, gone + {u})
  {
  }

  // The list holds each element of the set once, in some order.
  ghost predicate Lists(list: seq<Uuid>, elements: set<Uuid>) {
    && (forall u :: u in list <==> u in elements)
    && (forall i, j :: 0 <= i < j < |list| ==> list[i] != list[j])
  }

  lemma ListsOneMore(list: seq<Uuid>, elements: set<Uuid>, u: Uuid)
    requires Lists(list, elements) && u !in elements
    ensures Lists(list + [u], elements + {u})
  {
  }

  // ---------------------------------------------------------------------------------------------
  // Passes, by what each of them reports
  // ---------------------------------------------------------------------------------------------

  // How many reports in a row, up to the last one, did not contain u.
  function Misses(reports: seq<set<Uuid>>, u: Uuid): nat {
    if reports == [] || u in reports[|reports| - 1] then 0 else 1 + Misses(reports[..|reports| - 1], u)
  }

  // The number of misses that a component survives.
  function Survives(limit: int): nat {
    if limit < 1 then 1 else limit
  }

  // After some of the reports u had been missed more often in a row than it survives.
  predicate EverDoomed(limit: int, reports: seq<set<Uuid>>, u: Uuid) {
    reports != [] && (EverDoomed(limit, reports[..|reports| - 1], u) || Misses(reports, u) > Survives(limit))
  }

  // The counter of a component that is still there says how many misses it has had.
  ghost predicate Tracks(limit: int, pending: Pending, u: Uuid, misses: nat) {
    && misses <= Survives(limit)
    && if misses == 0 then u !in pending else u in pending && pending[u] == misses - 1
  }

  // One pass on one component: seen, missed and kept, or missed once too often.
  lemma TracksStep(limit: int, pending: Pending, known: set<Uuid>, existing: set<Uuid>, u: Uuid, misses: nat)
    requires u in existing && Tracks(limit, pending, u, misses)
    ensures var cleaned, missing := pending - known, existing - known;
            var misses' := if u in known then 0 else misses + 1;
            if misses' > Survives(limit)
            then u in Doomed(limit, cleaned, missing) && u !in Counted(limit, cleaned, missing)
            else u !in Doomed(limit, cleaned, missing) && Tracks(limit, Counted(limit, cleaned, missing), u, misses')
  {
  }
}
