/** The utilization alert service and its throttle (alertservice.py). */
module AlertThrottle {
  import opened Wrappers

  datatype Level = Info | Warning | Critical

  const LEVELS: seq<Level> := [Info, Warning, Critical]

  lemma AllLevels()
    ensures forall level :: level in LEVELS[..|LEVELS|]
  {
    forall level ensures level in LEVELS[..|LEVELS|] {
      match level
      case Info => assert LEVELS[..|LEVELS|][0] == level;
      case Warning => assert LEVELS[..|LEVELS|][1] == level;
      case Critical => assert LEVELS[..|LEVELS|][2] == level;
    }
  }

  datatype Thresholds = Thresholds(info: real, warning: real, critical: real) {
    function Of(level: Level): real {
      match level
      case Info => info
      case Warning => warning
      case Critical => critical
    }
  }

  // Whether a load reaches a level, and whether one level lies below another.
  predicate Reached(t: Thresholds, util: real, level: Level) {
    match level
    case Info => t.info <= util
    case Warning => t.warning <= util
    case Critical => t.critical <= util
  }

  predicate Lower(t: Thresholds, a: Level, b: Level) {
    match (a, b)
    case (Info, Warning) => t.info < t.warning
    case (Info, Critical) => t.info < t.critical
    case (Warning, Info) => t.warning < t.info
    case (Warning, Critical) => t.warning < t.critical
    case (Critical, Info) => t.critical < t.info
    case (Critical, Warning) => t.critical < t.warning
    case _ => false
  }

  datatype ComponentType = Cpu | Memory | Disk | Network | Unknown

  datatype AlertKey = AlertKey(kind: ComponentType, uuid: string, severity: Level)

  datatype Row = Row(key: AlertKey, createdAt: int)

  datatype Config = Config(thresholds: Thresholds, throttleMinutes: int)

  // complete: every required parameter is present.
  datatype Request = Request(kind: ComponentType, uuid: string, utilization: real, complete: bool)

  datatype State = State(lastSent: map<AlertKey, int>, rows: seq<Row>)

  // Info readings get no alert.
  function SeverityOf(thresholds: Thresholds, utilization: real): Option<Level> {
    if utilization >= thresholds.critical then Some(Critical)
    else if utilization >= thresholds.warning then Some(Warning)
    else None
  }

  predicate Throttled(cfg: Config, lastSent: map<AlertKey, int>, key: AlertKey, now: int) {
    key in lastSent && now - lastSent[key] < 60 * cfg.throttleMinutes
  }

  // The key under which a request asks for an alert, if it asks for one at all.
  function KeyOf(cfg: Config, req: Request): Option<AlertKey> {
    if req.kind == Unknown || !req.complete then None
    else
      match SeverityOf(cfg.thresholds, req.utilization)
      case None => None
      case Some(severity) => Some(AlertKey(req.kind, req.uuid, severity))
  }

  function Trigger(cfg: Config, s: State, req: Request, now: int): State {
    match KeyOf(cfg, req)
    case None => s
    case Some(key) =>
      if Throttled(cfg, s.lastSent, key, now) then s
      else State(s.lastSent[key := now], s.rows + [Row(key, now)])
  }

  class Service {
    const cfg: Config
    var lastSent: map<AlertKey, int>
    var rows: seq<Row>

    constructor (cfg: Config)
      ensures this.cfg == cfg && View() == State(map[], [])
    {
      this.cfg := cfg;
      lastSent, rows := map[], [];
    }

    ghost function View(): State
      reads this
    {
      State(lastSent, rows)
    }

    method TriggerUtilizationAlert(req: Request, now: int)
      modifies this
      ensures View() == Trigger(cfg, old(View()), req, now)
    {
      if req.kind == Unknown {
        return;
      }
      if !req.complete {
        return;
      }
      var severity := SeverityOf(cfg.thresholds, req.utilization);
      if severity.None? {
        return;
      }
      var key := AlertKey(req.kind, req.uuid, severity.value);
      if key in lastSent && now - lastSent[key] < 60 * cfg.throttleMinutes {
        return;
      }
      lastSent := lastSent[key := now];
      rows := rows + [Row(key, now)];
    }
  }

  // ---------------------------------------------------------------------------------------------
  // Whole runs of the service
  // ---------------------------------------------------------------------------------------------

  datatype Call = Call(req: Request, at: int)

  ghost predicate Chronological(calls: seq<Call>) {
    forall i, j :: 0 <= i < j < |calls| ==> calls[i].at <= calls[j].at
  }

  function Run(cfg: Config, calls: seq<Call>): State {
    if calls == [] then State(map[], [])
    else
      var last := calls[|calls| - 1];
      Trigger(cfg, Run(cfg, calls[..|calls| - 1]), last.req, last.at)
  }

  // Rows under one key are spaced by the throttle; lastSent holds the latest of each, none after now.
  ghost predicate Spaced(cfg: Config, s: State, now: int) {
    && (forall key :: key in s.lastSent ==> Row(key, s.lastSent[key]) in s.rows)
    && (forall i :: 0 <= i < |s.rows| ==>
          s.rows[i].key in s.lastSent && s.rows[i].createdAt <= s.lastSent[s.rows[i].key])
    && (forall i, j :: 0 <= i < j < |s.rows| && s.rows[i].key == s.rows[j].key ==>
          s.rows[i].createdAt + 60 * cfg.throttleMinutes <= s.rows[j].createdAt)
    && (forall key :: key in s.lastSent ==> s.lastSent[key] <= now)
  }

  lemma TriggerKeepsSpacing(cfg: Config, s: State, req: Request, now: int)
    requires Spaced(cfg, s, now)
    ensures Spaced(cfg, Trigger(cfg, s, req, now), now)
  {
    var s' := Trigger(cfg, s, req, now);
    if s' != s {
      var key := KeyOf(cfg, req).value;
      assert forall i :: 0 <= i < |s.rows| ==> s'.rows[i] == s.rows[i];
      assert s'.rows[|s.rows|] == Row(key, now);
      forall k | k in s'.lastSent ensures Row(k, s'.lastSent[k]) in s'.rows {
        if k == key {
          assert Row(k, now) in s'.rows;
        } else {
          assert Row(k, s.lastSent[k]) in s.rows;
        }
      }
    }
  }

  lemma {:induction false} RowsSpaced(cfg: Config, calls: seq<Call>, now: int)
    requires Chronological(calls) && (calls != [] ==> calls[|calls| - 1].at <= now)
    ensures Spaced(cfg, Run(cfg, calls), now)
  {
    if calls != [] {
      var last := calls[|calls| - 1];
      RowsSpaced(cfg, calls[..|calls| - 1], last.at);
      TriggerKeepsSpacing(cfg, Run(cfg, calls[..|calls| - 1]), last.req, last.at);
    }
  }

  // The alert that a request asks for, on its numbers: a load below the warning threshold asks for none.
  ghost predicate AsksFor(cfg: Config, req: Request, key: AlertKey) {
    && req.complete && req.kind != Unknown && key.kind == req.kind && key.uuid == req.uuid
    && match key.severity
       case Critical => cfg.thresholds.critical <= req.utilization
       case Warning => cfg.thresholds.warning <= req.utilization < cfg.thresholds.critical
       case Info => false
  }

  // Every row under the key is at least the throttle old.
  ghost predicate AllOld(cfg: Config, rows: seq<Row>, key: AlertKey, now: int) {
    forall row :: row in rows && row.key == key ==> now - row.createdAt >= 60 * cfg.throttleMinutes
  }

  // lastSent holds the instant of each key's latest row.
  ghost predicate Latest(s: State) {
    && (forall key :: key in s.lastSent ==> Row(key, s.lastSent[key]) in s.rows)
    && (forall row :: row in s.rows ==> row.key in s.lastSent && row.createdAt <= s.lastSent[row.key])
  }

  // The rows after a request: a new one exactly when it asks for an alert and no row under its key is
  // younger than the throttle.
  ghost predicate RowAdded(cfg: Config, rows: seq<Row>, req: Request, now: int, rows': seq<Row>) {
    && (forall key :: AsksFor(cfg, req, key) ==>
          rows' == if AllOld(cfg, rows, key, now) then rows + [Row(key, now)] else rows)
    && ((forall key :: !AsksFor(cfg, req, key)) ==> rows' == rows)
  }

  lemma AsksForKey(cfg: Config, req: Request, key: AlertKey)
    ensures AsksFor(cfg, req, key) <==> KeyOf(cfg, req) == Some(key)
  {
  }

  lemma TriggerExactly(cfg: Config, s: State, req: Request, now: int)
    requires Latest(s)
    ensures RowAdded(cfg, s.rows, req, now, Trigger(cfg, s, req, now).rows)
    ensures cfg.throttleMinutes >= 0 ==> Latest(Trigger(cfg, s, req, now))
  {
    var s' := Trigger(cfg, s, req, now);
    forall key ensures AsksFor(cfg, req, key) <==> KeyOf(cfg, req) == Some(key) {
      AsksForKey(cfg, req, key);
    }
    if KeyOf(cfg, req).Some? {
      var key := KeyOf(cfg, req).value;
      AllOldIff(cfg, s, key, now);
      if s' != s && cfg.throttleMinutes >= 0 {
        LatestAppend(s, key, now);
      }
    }
  }

  lemma AllOldIff(cfg: Config, s: State, key: AlertKey, now: int)
    requires Latest(s)
    ensures AllOld(cfg, s.rows, key, now) <==> !Throttled(cfg, s.lastSent, key, now)
  {
    if key in s.lastSent {
      assert Row(key, s.lastSent[key]).key == key;
    }
  }

  lemma LatestAppend(s: State, key: AlertKey, now: int)
    requires Latest(s) && (key in s.lastSent ==> s.lastSent[key] <= now)
    ensures Latest(State(s.lastSent[key := now], s.rows + [Row(key, now)]))
  {
    var rows := s.rows + [Row(key, now)];
    assert rows[|s.rows|] == Row(key, now);
    forall k | k in s.lastSent && k != key ensures Row(k, s.lastSent[k]) in rows {
      assert Row(k, s.lastSent[k]) in s.rows;
    }
  }

  // Main result: in every run a request that asks for an alert gets its row exactly when no row under its
  // key is younger than the throttle, and any other request changes no row.
  lemma RowExactlyWhenOld(cfg: Config, calls: seq<Call>, req: Request, now: int)
    requires Chronological(calls) && (calls != [] ==> calls[|calls| - 1].at <= now)
    ensures RowAdded(cfg, Run(cfg, calls).rows, req, now, Trigger(cfg, Run(cfg, calls), req, now).rows)
  {
    RowsSpaced(cfg, calls, now);
    TriggerExactly(cfg, Run(cfg, calls), req, now);
  }
}
