/** Flagging the disks that vanish from the payload, asking the agent about them, and skipping flagged
    disks (diskservice.py). */
module DiskFlags {
  import opened Wrappers

  type Uuid = string

  datatype Row = Row(device: Uuid, flagged: bool)

  // One disk of a payload; valid says whether its uuid is well formed, fails whether preparing its record
  // raises an error.
  datatype Entry = Entry(uuid: Uuid, valid: bool, fails: bool, usage: real)

  datatype Result = InvalidUuid | NotFound | SkippedFlagged | Failed | Recorded

  type Rows = map<Uuid, Row>

  // A monitoring cycle that has read the rows and not yet written the flags.
  datatype Cycle = Cycle(cached: Rows, payload: seq<Entry>)

  // sent counts the verification requests per disk.
  datatype State = State(rows: Rows, sent: multiset<Uuid>, cycles: map<Uuid, Cycle>)

  datatype Reply = Reply(uuid: Uuid, device: Uuid, exists_: bool)

  // A device has one cycle at a time; cycles of other devices and replies come in between.
  datatype Action =
    | Begin(device: Uuid, payload: seq<Entry>)
    | Finish(device: Uuid)
    | Abort(device: Uuid)  // an error, a timeout or a cancellation before the flags are written
    | Answer(reply: Reply)

  function Known(rows: Rows, device: Uuid): set<Uuid> {
    set u | u in rows && rows[u].device == device
  }

  function Reported(rows: Rows, device: Uuid, payload: seq<Entry>): set<Uuid> {
    set e | e in payload && e.valid && e.uuid in rows && rows[e.uuid].device == device :: e.uuid
  }

  function ResultOf(rows: Rows, device: Uuid, e: Entry): Result {
    if !e.valid then InvalidUuid
    else if e.uuid !in rows || rows[e.uuid].device != device then NotFound
    else if rows[e.uuid].flagged then SkippedFlagged
    else if e.fails then Failed
    else Recorded
  }

  function SetFlag(rows: Rows, some: set<Uuid>, flagged: bool): Rows {
    map u | u in rows :: if u in some then rows[u].(flagged := flagged) else rows[u]
  }

  function Missing(rows: Rows, device: Uuid, payload: seq<Entry>): set<Uuid> {
    Known(rows, device) - Reported(rows, device, payload)
  }

  // The disks that a pass over some of them newly flags, and asks the agent about.
  function Unflagged(rows: Rows, some: set<Uuid>): set<Uuid> {
    set u <- some | u in rows && !rows[u].flagged
  }

  // The rows after a cycle that decided on what it had read.
  function Written(rows: Rows, cached: Rows, device: Uuid, payload: seq<Entry>): Rows {
    SetFlag(SetFlag(rows, Missing(cached, device, payload), true),
            Reappeared(cached, Reported(cached, device, payload)), false)
  }

  function Reappeared(cached: Rows, incoming: set<Uuid>): set<Uuid> {
    set u <- incoming | u in cached && cached[u].flagged
  }

  function Answered(rows: Rows, r: Reply): Rows {
    if r.exists_ && r.uuid in rows && rows[r.uuid].device == r.device then SetFlag(rows, {r.uuid}, false) else rows
  }

  function AllAnswered(rows: Rows, replies: seq<Reply>): Rows {
    if replies == [] then rows
    else Answered(AllAnswered(rows, replies[..|replies| - 1]), replies[|replies| - 1])
  }

  function Step(s: State, a: Action): State {
    match a
    case Begin(device, payload) =>
      if device in s.cycles then s else s.(cycles := s.cycles[device := Cycle(s.rows, payload)])
    case Finish(device) =>
      if device !in s.cycles then s
      else
        var c := s.cycles[device];
        State(Written(s.rows, c.cached, device, c.payload),
              s.sent + multiset(Unflagged(s.rows, Missing(c.cached, device, c.payload))),
              s.cycles - {device})
    case Abort(device) => s.(cycles := s.cycles - {device})
    case Answer(reply) => s.(rows := Answered(s.rows, reply))
  }

  // The same disks on the same devices.
  ghost predicate SameDisks(a: Rows, b: Rows) {
    a.Keys == b.Keys && forall u :: u in a ==> a[u].device == b[u].device
  }

  class Service {
    var rows: Rows
    ghost var sent: multiset<Uuid>

    constructor (rows: Rows)
      ensures this.rows == rows && sent == multiset{}
    {
      this.rows, sent := rows, multiset{};
    }

    // One monitoring cycle.  The rows are read once, at its start; replies are those that arrive before
    // the flags are written.  A malformed entry or a failing bulk insert breaks it off
    // before any evaluation or flag.
    method ProcessDiskData(device: Uuid, payload: seq<Entry>, breaksOff: bool, replies: seq<Reply>)
      returns (results: seq<Result>, evaluated: seq<Uuid>)
      modifies this
      ensures breaksOff ==> rows == old(rows) && sent == old(sent) && results == [] && evaluated == []
      ensures !breaksOff ==>
                && rows == Written(AllAnswered(old(rows), replies), old(rows), device, payload)
                && sent == old(sent) + multiset(Unflagged(AllAnswered(old(rows), replies),
                                                          Missing(old(rows), device, payload)))
                && |results| == |payload|
                && (forall i :: 0 <= i < |payload| ==> results[i] == ResultOf(old(rows), device, payload[i]))
                && (forall u :: u in evaluated <==>
                      exists e :: e in payload && e.uuid == u && e.usage > 0.0
                                  && ResultOf(old(rows), device, e) == Recorded)
    {
      var cached := rows;
      var incoming: set<Uuid> := {};
      results, evaluated := [], [];
      for i := 0 to |payload|
        invariant |results| == i
        invariant rows == cached && sent == old(sent)
        invariant forall k :: 0 <= k < i ==> results[k] == ResultOf(cached, device, payload[k])
        invariant incoming == Reported(cached, device, payload[..i])
        invariant forall u :: u in evaluated <==>
                    exists e :: e in payload[..i] && e.uuid == u && e.usage > 0.0
                                && ResultOf(cached, device, e) == Recorded
      {
        var e := payload[i];
        assert payload[..i + 1] == payload[..i] + [e];
        if !e.valid {
          results := results + [InvalidUuid];
        } else if e.uuid !in cached || cached[e.uuid].device != device {
          results := results + [NotFound];
        } else {
          incoming := incoming + {e.uuid};
          if cached[e.uuid].flagged {
            results := results + [SkippedFlagged];
          } else if e.fails {
            results := results + [Failed];
          } else {
            results := results + [Recorded];
            if e.usage > 0.0 {
              evaluated := evaluated + [e.uuid];
            }
          }
        }
      }
      assert payload[..|payload|] == payload;
      if breaksOff {
        return [], [];
      }
      for i := 0 to |replies|
        invariant rows == AllAnswered(cached, replies[..i]) && SameDisks(cached, rows) && sent == old(sent)
      {
        assert replies[..i + 1][..i] == replies[..i];
        HandleVerificationReply(replies[i]);
      }
      assert replies[..|replies|] == replies;
      HandleMissingDisks(cached, device, incoming);
    }

    method HandleMissingDisks(cached: Rows, device: Uuid, incoming: set<Uuid>)
      requires SameDisks(cached, rows) && incoming <= Known(cached, device)
      modifies this
      ensures rows == SetFlag(SetFlag(old(rows), Known(cached, device) - incoming, true),
                              Reappeared(cached, incoming), false)
      ensures sent == old(sent) + multiset(Unflagged(old(rows), Known(cached, device) - incoming))
    {
      var missing := (set u | u in cached && cached[u].device == device) - incoming;
      var reappeared := set u | u in incoming && cached[u].flagged;
      FlagMissing(missing);
      UnflagReappeared(reappeared);
    }

    method FlagMissing(missing: set<Uuid>)
      requires missing <= rows.Keys
      modifies this
      ensures rows == SetFlag(old(rows), missing, true)
      ensures sent == old(sent) + multiset(Unflagged(old(rows), missing))
    {
      var todo := missing;
      ghost var done: set<Uuid> := {};
      while todo != {}
        invariant done == missing - todo
        invariant rows == SetFlag(old(rows), done, true)
        invariant sent == old(sent) + multiset(Unflagged(old(rows), done))
        decreases todo
      {
        var u :| u in todo;
        OneMore(old(rows), done, u, true);
        if !rows[u].flagged {
          rows := rows[u := rows[u].(flagged := true)];
          sent := sent + multiset{u};
        }
        todo, done := todo - {u}, done + {u};
      }
    }

    method UnflagReappeared(reappeared: set<Uuid>)
      requires reappeared <= rows.Keys
      modifies this
      ensures rows == SetFlag(old(rows), reappeared, false) && sent == old(sent)
    {
      var todo := reappeared;
      ghost var done: set<Uuid> := {};
      while todo != {}
        invariant done == reappeared - todo
        invariant rows == SetFlag(old(rows), done, false) && sent == old(sent)
        decreases todo
      {
        var u :| u in todo;
        OneMore(old(rows), done, u, false);
        if rows[u].flagged {
          rows := rows[u := rows[u].(flagged := false)];
        }
        todo, done := todo - {u}, done + {u};
      }
    }

    method HandleVerificationReply(r: Reply)
      modifies this
      ensures rows == Answered(old(rows), r) && sent == old(sent)
    {
      if r.exists_ && r.uuid in rows && rows[r.uuid].device == r.device && rows[r.uuid].flagged {
        rows := rows[r.uuid := rows[r.uuid].(flagged := false)];
      }
    }
  }

  // One more disk of a set, as the loops handle it.
  lemma OneMore(rows: Rows, done: set<Uuid>, u: Uuid, flagged: bool)
    requires u in rows && u !in done
    ensures var before, after := SetFlag(rows, done, flagged), SetFlag(rows, done + {u}, flagged);
            && before[u] == rows[u]
            && after == before[u := rows[u].(flagged := flagged)]
            && (rows[u].flagged == flagged ==> after == before)
    ensures multiset(Unflagged(rows, done + {u}))
            == multiset(Unflagged(rows, done)) + (if rows[u].flagged then multiset{} else multiset{u})
  {
    assert Unflagged(rows, done + {u})
           == if rows[u].flagged then Unflagged(rows, done) else Unflagged(rows, done) + {u};
  }

  // ---------------------------------------------------------------------------------------------
  // One cycle, and whole runs
  // ---------------------------------------------------------------------------------------------

  // While a cycle runs, only replies touch the flags of its device, and they only clear them.
  ghost predicate Current(s: State) {
    forall device :: device in s.cycles ==>
      var cached := s.cycles[device].cached;
      && SameDisks(cached, s.rows)
      && forall u :: u in s.rows && s.rows[u].device == device && s.rows[u].flagged ==> cached[u].flagged
  }

  lemma StepKeepsCurrent(s: State, a: Action)
    requires Current(s)
    ensures Current(Step(s, a)) && SameDisks(s.rows, Step(s, a).rows)
  {
    match a
    case Begin(_, _) =>
    case Finish(device) =>
      if device in s.cycles {
        OnlyItsDevice(s.rows, s.cycles[device].cached, device, s.cycles[device].payload);
      }
    case Abort(_) =>
    case Answer(reply) => OnlyUnflags(s.rows, reply);
  }

  lemma OnlyItsDevice(rows: Rows, cached: Rows, device: Uuid, payload: seq<Entry>)
    requires SameDisks(cached, rows)
    ensures var rows' := Written(rows, cached, device, payload);
            && SameDisks(rows, rows')
            && forall u :: u in rows && rows[u].device != device ==> rows'[u] == rows[u]
  {
  }

  lemma OnlyUnflags(rows: Rows, reply: Reply)
    ensures var rows' := Answered(rows, reply);
            && SameDisks(rows, rows')
            && forall u :: u in rows && rows'[u].flagged ==> rows[u].flagged
  {
  }

  // What becomes of a payload entry, on its fields and the disk's row.
  lemma ResultExactly(rows: Rows, device: Uuid, e: Entry)
    ensures var result, known := ResultOf(rows, device, e), e.uuid in rows && rows[e.uuid].device == device;
            && (result == InvalidUuid <==> !e.valid)
            && (result == NotFound <==> e.valid && !known)
            && (result == SkippedFlagged <==> e.valid && known && rows[e.uuid].flagged)
            && (result == Failed <==> e.valid && known && !rows[e.uuid].flagged && e.fails)
            && (result == Recorded <==> e.valid && known && !rows[e.uuid].flagged && !e.fails)
  {
  }

  ghost predicate ReportedIn(payload: seq<Entry>, u: Uuid) {
    exists e :: e in payload && e.valid && e.uuid == u
  }

  // Main result: when a cycle finishes, the flagged disks of its device are exactly the known ones it did
  // not report, whatever replies came in between, and no other device is touched.
  lemma FlaggedAreMissing(s: State, device: Uuid)
    requires Current(s) && device in s.cycles
    ensures var c, s' := s.cycles[device], Step(s, Finish(device));
            && SameDisks(s.rows, s'.rows)
            && (forall u :: u in s.rows && s.rows[u].device == device ==>
                  (s'.rows[u].flagged <==> !ReportedIn(c.payload, u)))
            && (forall u :: u in s.rows && s.rows[u].device != device ==> s'.rows[u] == s.rows[u])
  {
    SameReported(s.cycles[device].cached, s.rows, device, s.cycles[device].payload);
  }

  lemma SameReported(a: Rows, b: Rows, device: Uuid, payload: seq<Entry>)
    requires SameDisks(a, b)
    ensures Reported(a, device, payload) == Reported(b, device, payload)
  {
  }

  function After(start: Rows, run: seq<Action>): State {
    if run == [] then State(start, multiset{}, map[]) else Step(After(start, run[..|run| - 1]), run[|run| - 1])
  }

  // The payload of the cycle that the run leaves open for a device, if any.
  function Ongoing(run: seq<Action>, device: Uuid): Option<seq<Entry>> {
    if run == [] then None
    else
      var last, before := run[|run| - 1], Ongoing(run[..|run| - 1], device);
      if last.Begin? && last.device == device && before.None? then Some(last.payload)
      else if (last.Finish? || last.Abort?) && last.device == device then None
      else before
  }

  // The last word on a disk: missing from its device's latest finished cycle, unless the agent has
  // vouched for it since.
  ghost function Flagged(rows: Rows, run: seq<Action>, u: Uuid): bool
    requires u in rows
  {
    if run == [] then rows[u].flagged
    else
      var last, before := run[|run| - 1], run[..|run| - 1];
      if last == Finish(rows[u].device) && Ongoing(before, rows[u].device).Some?
      then !ReportedIn(Ongoing(before, rows[u].device).value, u)
      else if last == Answer(Reply(u, rows[u].device, true)) then false
      else Flagged(rows, before, u)
  }

  // How often u goes from unflagged to flagged.
  ghost function Flaggings(rows: Rows, run: seq<Action>, u: Uuid): nat
    requires u in rows
  {
    if run == [] then 0
    else
      Flaggings(rows, run[..|run| - 1], u)
      + (if !Flagged(rows, run[..|run| - 1], u) && Flagged(rows, run, u) then 1 else 0)
  }

  lemma {:induction false} CyclesAreCurrent(rows: Rows, run: seq<Action>)
    ensures Current(After(rows, run)) && SameDisks(rows, After(rows, run).rows)
  {
    if run != [] {
      CyclesAreCurrent(rows, run[..|run| - 1]);
      StepKeepsCurrent(After(rows, run[..|run| - 1]), run[|run| - 1]);
    }
  }

  lemma {:induction false} CycleIsOngoing(rows: Rows, run: seq<Action>, device: Uuid)
    ensures var cycles := After(rows, run).cycles;
            Ongoing(run, device) == if device in cycles then Some(cycles[device].payload) else None
  {
    if run != [] {
      CycleIsOngoing(rows, run[..|run| - 1], device);
    }
  }

  lemma {:induction false} FlagIsLastWord(rows: Rows, run: seq<Action>, u: Uuid)
    requires u in rows
    ensures var s := After(rows, run);
            u in s.rows && s.rows[u] == Row(rows[u].device, Flagged(rows, run, u))
  {
    if run != [] {
      var before, last := run[..|run| - 1], run[|run| - 1];
      FlagIsLastWord(rows, before, u);
      CyclesAreCurrent(rows, before);
      CycleIsOngoing(rows, before, rows[u].device);
      var s := After(rows, before);
      if last.Finish? && last.device in s.cycles {
        FlaggedAreMissing(s, last.device);
        SameReported(rows, s.rows, last.device, s.cycles[last.device].payload);
      }
    }
  }

  // Main result: over any interleaving of cycles and replies of all devices the flag is the last word, and
  // every change from unflagged to flagged, and nothing else, sends one verification request.
  lemma {:induction false} RequestsAreFlaggings(rows: Rows, run: seq<Action>, u: Uuid)
    requires u in rows
    ensures var s := After(rows, run);
            && u in s.rows && s.rows[u].flagged == Flagged(rows, run, u)
            && s.sent[u] == Flaggings(rows, run, u)
  {
    FlagIsLastWord(rows, run, u);
    if run != [] {
      var before, last := run[..|run| - 1], run[|run| - 1];
      RequestsAreFlaggings(rows, before, u);
      FlagIsLastWord(rows, before, u);
      CyclesAreCurrent(rows, before);
      var s := After(rows, before);
      if last.Finish? && last.device in s.cycles {
        var c := s.cycles[last.device];
        var asked := Unflagged(s.rows, Missing(c.cached, last.device, c.payload));
        assert multiset(asked)[u] == if u in asked then 1 else 0;
        FlaggedAreMissing(s, last.device);
        SameReported(c.cached, s.rows, last.device, c.payload);
      }
    }
  }

  // A disk that comes back is recorded again from the second cycle on, the first one only unflags it.
  lemma ReappearedDiskSkipsOneCycle(rows: Rows, device: Uuid, first: seq<Entry>, e: Entry)
    requires e in first && e.valid && !e.fails
    requires e.uuid in rows && rows[e.uuid] == Row(device, true)
    ensures ResultOf(rows, device, e) == SkippedFlagged
    ensures ResultOf(Written(rows, rows, device, first), device, e) == Recorded
  {
  }
}
