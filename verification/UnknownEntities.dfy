/** Reporting each unknown component once per expiry window (unknown_handler.py), with calls, sends,
    timers and cancellations interleaved. */
module UnknownEntities {
  import opened Wrappers

  datatype Config = Config(maxKeys: nat, expirySeconds: nat)

  datatype Item =
    | Disk(name: Option<string>)
    | Partition(disk: Option<string>, part: Option<string>)
    | Port(device: Option<string>, interface: Option<string>)
    | Other

  datatype Key =
    | DiskKey(device: string, name: string)
    | PartitionKey(disk: string, part: string)
    | PortKey(device: string, interface: string)

  function OrElse(s: Option<string>, default: string): string {
    if s.Some? then s.value else default
  }

  function BuildKey(device: string, item: Item): Option<Key> {
    match item
    case Disk(name) => Some(DiskKey(device, OrElse(name, "unknown_disk")))
    case Partition(disk, part) => Some(PartitionKey(OrElse(disk, "unknown_disk"), OrElse(part, "unknown_partition")))
    case Port(own, interface) => Some(PortKey(OrElse(own, device), OrElse(interface, "unknown_interface")))
    case Other => None
  }

  // sender (whether a response sender has been set) and reported are the fields of the source.  The rest
  // says where each reported key is: in a send, under a running timer, or in a send that was cancelled;
  // lastDone remembers when each key's latest send ended.
  datatype State = State(
    now: int, sender: bool, reported: set<Key>,
    sending: set<Key>, timers: map<Key, int>, cancelled: set<Key>,
    everSent: set<Key>, lastDone: map<Key, int>)

  datatype Action =
    | SetSender
    | Handle(device: string, item: Item)  // one item of a call, up to the start of its send
    | SendEnds(key: Key)                  // the send returns or raises; the timer starts
    | SendCancelled(key: Key)             // the coroutine that awaits the send is cancelled
    | TimerFires(key: Key)
    | Tick(now: int)

  function Init(): State {
    State(0, false, {}, {}, map[], {}, {}, map[])
  }

  // The key that is sent for an item, if any.
  function Admitted(cfg: Config, sender: bool, reported: set<Key>, device: string, item: Item): Option<Key> {
    match BuildKey(device, item)
    case Some(key) => if sender && |reported| < cfg.maxKeys && key !in reported then Some(key) else None
    case None => None
  }

  predicate Enabled(s: State, a: Action) {
    match a
    case SetSender => true
    case Handle(_, _) => true
    case SendEnds(key) => key in s.sending
    case SendCancelled(key) => key in s.sending
    case TimerFires(key) => key in s.timers && s.timers[key] <= s.now
    case Tick(now) => s.now <= now
  }

  function Step(cfg: Config, s: State, a: Action): State {
    if !Enabled(s, a) then s
    else
      match a
      case SetSender => s.(sender := true)
      case Handle(device, item) =>
        (match Admitted(cfg, s.sender, s.reported, device, item)
         case None => s
         case Some(key) =>
           s.(reported := s.reported + {key}, sending := s.sending + {key}, everSent := s.everSent + {key}))
      case SendEnds(key) =>
        s.(sending := s.sending - {key}, timers := s.timers[key := s.now + cfg.expirySeconds],
           lastDone := s.lastDone[key := s.now])
      case SendCancelled(key) =>
        s.(sending := s.sending - {key}, cancelled := s.cancelled + {key})
      case TimerFires(key) => s.(reported := s.reported - {key}, timers := s.timers - {key})
      case Tick(now) => s.(now := now)
  }

  function After(cfg: Config, run: seq<Action>): State {
    if run == [] then Init() else Step(cfg, After(cfg, run[..|run| - 1]), run[|run| - 1])
  }

  class Service {
    const cfg: Config
    var sender: bool
    var reported: set<Key>

    constructor (cfg: Config, sender: bool)
      ensures this.cfg == cfg && this.sender == sender && reported == {}
    {
      this.cfg, this.sender, reported := cfg, sender, {};
    }

    method SetResponseSender()
      modifies this
      ensures sender && reported == old(reported)
    {
      sender := true;
    }

    // One item up to its send: the key to send, if there is a sender and the item is neither invalid, nor
    // a duplicate, nor beyond the limit.
    method Admit(device: string, item: Item) returns (send: Option<Key>)
      modifies this
      ensures send == Admitted(cfg, sender, old(reported), device, item) && sender == old(sender)
      ensures reported == if send.Some? then old(reported) + {send.value} else old(reported)
    {
      if !sender {
        return None;
      }
      var key := BuildKey(device, item);
      if key.None? {
        return None;
      }
      if |reported| >= cfg.maxKeys {
        return None;
      }
      if key.value in reported {
        return None;
      }
      reported := reported + {key.value};
      return key;
    }

    method ExpireKey(key: Key)
      modifies this
      ensures reported == old(reported) - {key} && sender == old(sender)
    {
      reported := reported - {key};
    }
  }

  // ---------------------------------------------------------------------------------------------
  // Every reachable state
  // ---------------------------------------------------------------------------------------------

  // Each reported key is in exactly one place, and their number is bounded.
  ghost predicate Placed(cfg: Config, s: State) {
    && |s.reported| <= cfg.maxKeys
    && (forall key :: key in s.reported <==> key in s.sending || key in s.timers || key in s.cancelled)
    && (forall key :: key in s.sending ==> key !in s.timers && key !in s.cancelled)
    && (forall key :: key in s.timers ==> key !in s.cancelled)
  }

  // A key that may be sent again has waited the whole window since its latest send ended.
  ghost predicate Waited(cfg: Config, s: State) {
    && (forall key :: key in s.everSent <==> key in s.sending || key in s.cancelled || key in s.lastDone)
    && (forall key :: key in s.timers ==> key in s.lastDone && s.timers[key] == s.lastDone[key] + cfg.expirySeconds)
    && (forall key :: key in s.lastDone && key !in s.timers ==> s.lastDone[key] + cfg.expirySeconds <= s.now)
  }

  lemma StepKeepsPlaces(cfg: Config, s: State, a: Action)
    requires Placed(cfg, s)
    ensures Placed(cfg, Step(cfg, s, a))
  {
    if a.TimerFires? && Enabled(s, a) {
      assert |s.reported - {a.key}| < |s.reported|;
    }
  }

  lemma StepKeepsWaits(cfg: Config, s: State, a: Action)
    requires Placed(cfg, s) && Waited(cfg, s)
    ensures Waited(cfg, Step(cfg, s, a))
  {
  }

  // Main result: over every interleaving the reported keys are bounded and each is in flight, or under
  // one timer, or lost to a cancelled send; and a key is only sent again after its whole window.
  lemma {:induction false} ReportedKeysPlaced(cfg: Config, run: seq<Action>)
    ensures Placed(cfg, After(cfg, run)) && Waited(cfg, After(cfg, run))
  {
    if run != [] {
      ReportedKeysPlaced(cfg, run[..|run| - 1]);
      StepKeepsPlaces(cfg, After(cfg, run[..|run| - 1]), run[|run| - 1]);
      StepKeepsWaits(cfg, After(cfg, run[..|run| - 1]), run[|run| - 1]);
    }
  }

  lemma ResentOnlyAfterWindow(cfg: Config, run: seq<Action>, device: string, item: Item)
    ensures var s := After(cfg, run);
            match Admitted(cfg, s.sender, s.reported, device, item)
            case None => true
            case Some(key) =>
              key in s.everSent ==> key in s.lastDone && s.lastDone[key] + cfg.expirySeconds <= s.now
  {
    ReportedKeysPlaced(cfg, run);
  }

  lemma AfterAppend(cfg: Config, run: seq<Action>, a: Action)
    ensures After(cfg, run + [a]) == Step(cfg, After(cfg, run), a)
  {
    assert (run + [a])[..|run + [a]| - 1] == run;
  }

  // When two items count as the same component: disks by device and name, partitions by disk and
  // partition whatever the device, ports by the device they name or else the reporting one, and interface.
  ghost predicate SameComponent(d1: string, i1: Item, d2: string, i2: Item) {
    match (i1, i2)
    case (Disk(n1), Disk(n2)) => d1 == d2 && Same(n1, n2, "unknown_disk")
    case (Partition(k1, p1), Partition(k2, p2)) => Same(k1, k2, "unknown_disk") && Same(p1, p2, "unknown_partition")
    case (Port(o1, f1), Port(o2, f2)) =>
      (match (o1, o2)
       case (Some(a), Some(b)) => a == b
       case (Some(a), None) => a == d2
       case (None, Some(b)) => d1 == b
       case (None, None) => d1 == d2)
      && Same(f1, f2, "unknown_interface")
    case _ => false
  }

  // Equal names, where a missing one stands for the default.
  ghost predicate Same(a: Option<string>, b: Option<string>, default: string) {
    match (a, b)
    case (Some(x), Some(y)) => x == y
    case (Some(x), None) => x == default
    case (None, Some(y)) => default == y
    case (None, None) => true
  }

  lemma SameKeyIff(d1: string, i1: Item, d2: string, i2: Item)
    ensures BuildKey(d1, i1) == None <==> i1 == Other
    ensures i1 != Other && i2 != Other ==> (BuildKey(d1, i1) == BuildKey(d2, i2) <==> SameComponent(d1, i1, d2, i2))
  {
  }

  // Main result: in every state an item is sent, and then counts as reported, exactly when there is a
  // sender, the item is valid, the limit is not reached and its component is not reported already.
  lemma SentExactly(cfg: Config, run: seq<Action>, device: string, item: Item)
    ensures var s, s', key := After(cfg, run), After(cfg, run + [Handle(device, item)]), BuildKey(device, item);
            if s.sender && item != Other && |s.reported| < cfg.maxKeys && key.value !in s.reported
            then s'.sending == s.sending + {key.value} && s'.reported == s.reported + {key.value}
            else s' == s
  {
    AfterAppend(cfg, run, Handle(device, item));
  }

  // Main result: a key under a timer is free to be sent again once the window is over.
  lemma SentAgain(cfg: Config, run: seq<Action>, now: int, key: Key, device: string, item: Item)
    requires var s := After(cfg, run);
             && key in s.timers && key in s.lastDone && s.sender
             && s.now <= now && s.lastDone[key] + cfg.expirySeconds <= now
    requires BuildKey(device, item) == Some(key)
    ensures key in After(cfg, run + [Tick(now)] + [TimerFires(key)] + [Handle(device, item)]).sending
  {
    ReportedKeysPlaced(cfg, run);
    var s := After(cfg, run);
    AfterAppend(cfg, run, Tick(now));
    AfterAppend(cfg, run + [Tick(now)], TimerFires(key));
    AfterAppend(cfg, run + [Tick(now)] + [TimerFires(key)], Handle(device, item));
    assert |s.reported - {key}| < |s.reported|;
  }

  // --- Cancelled sends ---------------------------------------------------------------------------

  // Whether some send in flight is cancelled during the run.
  predicate Cancels(cfg: Config, run: seq<Action>) {
    run != [] &&
    (Cancels(cfg, run[..|run| - 1])
     || (run[|run| - 1].SendCancelled? && Enabled(After(cfg, run[..|run| - 1]), run[|run| - 1])))
  }

  lemma CancelledOnlyGrows(cfg: Config, s: State, a: Action)
    ensures Step(cfg, s, a).cancelled
            == s.cancelled + (if a.SendCancelled? && Enabled(s, a) then {a.key} else {})
  {
  }

  lemma {:induction false} CancelledIffCancels(cfg: Config, run: seq<Action>)
    ensures After(cfg, run).cancelled == {} <==> !Cancels(cfg, run)
  {
    if run != [] {
      CancelledIffCancels(cfg, run[..|run| - 1]);
      CancelledOnlyGrows(cfg, After(cfg, run[..|run| - 1]), run[|run| - 1]);
    }
  }

  // Main result: each reported key has one send in flight or one timer, exactly as long as no send has
  // been cancelled.
  lemma AllLiveIffNoneCancelled(cfg: Config, run: seq<Action>)
    ensures var s := After(cfg, run);
            s.reported == s.sending + s.timers.Keys <==> !Cancels(cfg, run)
  {
    ReportedKeysPlaced(cfg, run);
    CancelledIffCancels(cfg, run);
    var s := After(cfg, run);
    if key :| key in s.cancelled {
      assert key in s.reported && key !in s.sending + s.timers.Keys;
    }
  }

  lemma {:induction false} StaysCancelled(cfg: Config, run: seq<Action>, later: seq<Action>, key: Key)
    requires key in After(cfg, run).cancelled
    ensures key in After(cfg, run + later).cancelled
  {
    if later == [] {
      assert run + later == run;
    } else {
      var rest := later[..|later| - 1];
      assert (run + later)[..|run + later| - 1] == run + rest;
      StaysCancelled(cfg, run, rest, key);
      CancelledOnlyGrows(cfg, After(cfg, run + rest), later[|later| - 1]);
    }
  }

  // A key whose send was cancelled is never sent again, whatever happens later.
  lemma CancelledForGood(cfg: Config, run: seq<Action>, later: seq<Action>, device: string, item: Item, key: Key)
    requires key in After(cfg, run).cancelled
    ensures var s := After(cfg, run + later); Admitted(cfg, s.sender, s.reported, device, item) != Some(key)
  {
    StaysCancelled(cfg, run, later, key);
    ReportedKeysPlaced(cfg, run + later);
  }

  // Once maxKeys sends have been cancelled, nothing is reported any more.
  lemma CancelledSendsCanBlock(cfg: Config, run: seq<Action>, device: string, item: Item)
    requires |After(cfg, run).cancelled| >= cfg.maxKeys
    ensures var s := After(cfg, run); Admitted(cfg, s.sender, s.reported, device, item) == None
  {
    var s := After(cfg, run);
    ReportedKeysPlaced(cfg, run);
    assert s.cancelled <= s.reported;
    SubsetSize(s.cancelled, s.reported);
  }

  function Name(i: nat): string {
    seq(i, _ => 'x')
  }

  // And that can happen: some run cancels the sends of n different disks.
  lemma {:induction false} CancelledSendsPile(cfg: Config, n: nat) returns (run: seq<Action>)
    requires n <= cfg.maxKeys
    ensures var s := After(cfg, run);
            && s.sender && s.sending == {} && s.reported == s.cancelled && |s.cancelled| == n
            && forall key :: key in s.cancelled ==> key.DiskKey? && |key.name| < n
  {
    if n == 0 {
      run := [SetSender];
      assert run[..0] == [];
    } else {
      var before := CancelledSendsPile(cfg, n - 1);
      run := before + [Handle("device", Disk(Some(Name(n - 1)))), SendCancelled(DiskKey("device", Name(n - 1)))];
      OneCancelledSend(cfg, before, Name(n - 1));
    }
  }

  lemma OneCancelledSend(cfg: Config, before: seq<Action>, name: string)
    requires var s := After(cfg, before);
             s.sender && s.sending == {} && |s.reported| < cfg.maxKeys && DiskKey("device", name) !in s.reported
    ensures var s, key := After(cfg, before), DiskKey("device", name);
            After(cfg, before + [Handle("device", Disk(Some(name))), SendCancelled(key)])
            == s.(reported := s.reported + {key}, everSent := s.everSent + {key}, cancelled := s.cancelled + {key})
  {
    var s, key := After(cfg, before), DiskKey("device", name);
    var handled := before + [Handle("device", Disk(Some(name)))];
    var run := before + [Handle("device", Disk(Some(name))), SendCancelled(key)];
    assert handled[..|handled| - 1] == before && run[..|run| - 1] == handled;
    assert After(cfg, handled).sending == {key};
    assert {key} - {key} == {};
  }

  // Main result: whatever the limit, some run silences the service for good.
  lemma ServiceSilenced(cfg: Config) returns (run: seq<Action>)
    ensures forall later: seq<Action>, device: string, item: Item ::
              var s := After(cfg, run + later); Admitted(cfg, s.sender, s.reported, device, item) == None
  {
    run := CancelledSendsPile(cfg, cfg.maxKeys);
    forall later: seq<Action>, device: string, item: Item
      ensures var s := After(cfg, run + later); Admitted(cfg, s.sender, s.reported, device, item) == None
    {
      forall key | key in After(cfg, run).cancelled ensures key in After(cfg, run + later).cancelled {
        StaysCancelled(cfg, run, later, key);
      }
      SubsetSize(After(cfg, run).cancelled, After(cfg, run + later).cancelled);
      CancelledSendsCanBlock(cfg, run + later, device, item);
    }
  }

  lemma {:induction false} SubsetSize(a: set<Key>, b: set<Key>)
    requires a <= b
    ensures |a| <= |b|
  {
    if a != {} {
      var key :| key in a;
      SubsetSize(a - {key}, b - {key});
    }
  }
}
