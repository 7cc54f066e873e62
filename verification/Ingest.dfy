/**
  Event ingest (server/routers/events.py with server/alert_manager.py, server/scoring/risk_scoring.py,
  server/metrics.py and the table functions of server/database.py): one event after the other, each
  stored, audited, counted into the baselines, alerted on and scored.
 */
module Ingest {
  import opened Data
  import opened Tables
  import opened Rules
  import opened Alerts
  import opened HashChain
  import AuditTable
  import AuditPurges

  /** One event of a batch, with what the server reads from its surroundings while handling it. */
  datatype Item = Item(event: Json, env: Env)

  /** The tables and the counters.  `suppressed` is history: the firings that deduplication held back. */
  datatype Server = Server(
    events: seq<EventRow>,
    audit: seq<AuditTable.Row>,
    devices: seq<Row<DeviceKey, Seen>>,
    users: seq<Row<UserKey, Seen>>,
    alerts: seq<AlertRow>,
    risk: seq<Row<string, int>>,
    eventsIngested: nat,
    alertsFired: map<(string, Rule), nat>,
    ruleFires: map<Rule, nat>,
    suppressed: map<Rule, nat>)

  const FRESH := Server([], [], [], [], [], [], 0, map[], map[], map[])

  /** `RULE_WEIGHTS.get(rule_name, 10)`. */
  function Weight(rule: Rule): nat {
    match rule
    case UnknownDevice => 40
    case AfterHoursDevice => 20
    case HighVolumeTransfer => 50
    case RapidCycle => 30
    case HoneypotDevice => 100
    case _ => 10
  }

  function Delta(fired: seq<Alert>): nat {
    if fired == [] then 0 else Delta(fired[..|fired| - 1]) + Weight(fired[|fired| - 1].rule)
  }

  function SeenAgain(before: Option<Seen>, now: int): Seen {
    match before
    case Some(s) => Seen(s.firstSeen, now, s.seenCount + 1)
    case None => Seen(now, now, 1)
  }

  /** `update_device_baseline` and `update_user_baseline`. */
  function Touch<K(==)>(rows: seq<Row<K, Seen>>, key: K, now: int): seq<Row<K, Seen>> {
    Put(rows, key, SeenAgain(Lookup(rows, key), now))
  }

  function Score(rows: seq<Row<string, int>>, host: string): int {
    match Lookup(rows, host)
    case Some(v) => v
    case None => 0
  }

  /** `upsert_risk_score`: the score only ever grows. */
  function AddRisk(rows: seq<Row<string, int>>, host: string, delta: int): seq<Row<string, int>> {
    Put(rows, host, Score(rows, host) + delta)
  }

  function CountFires(m: map<Rule, nat>, fired: seq<Alert>): map<Rule, nat> {
    if fired == [] then m else Bump(CountFires(m, fired[..|fired| - 1]), fired[|fired| - 1].rule)
  }

  function AlertKey(event: Json, a: Alert): Key {
    Key(Host(event), Device(event), a.rule)
  }

  /** One alert through deduplication: persisted and counted, or held back. */
  function ProcessOne(s: Server, event: Json, a: Alert, now: int, window: int): Server {
    if HasRecent(s.alerts, AlertKey(event, a), now - window) then s.(suppressed := Bump(s.suppressed, a.rule))
    else
      s.(alerts := s.alerts + [AlertRow(now, AlertKey(event, a), a.severity)],
         alertsFired := Bump(s.alertsFired, (a.severity, a.rule)))
  }

  function ProcessAlerts(s: Server, event: Json, fired: seq<Alert>, now: int, window: int): Server {
    if fired == [] then s
    else ProcessOne(ProcessAlerts(s, event, fired[..|fired| - 1], now, window), event, fired[|fired| - 1], now, window)
  }

  /** The rules that fire on an event, judged against what is stored before it. */
  function Fired(s: Server, item: Item): seq<Alert> {
    Evaluate(RULE_COUNT, item.event, s.events, s.users, item.env)
  }

  /** The tables after storing and auditing one event and counting it into the baselines. */
  function Store(H: Hasher, s: Server, item: Item): Server {
    var e, now := item.event, item.env.now;
    var known := Host(e) != "" && Device(e) != "";
    s.(events := s.events + [EventRow(now, e)],
       eventsIngested := s.eventsIngested + 1,
       audit := AuditTable.AppendRow(H, s.audit, Host(e), e, now),
       devices := if known then Touch(s.devices, DeviceKey(Host(e), Device(e)), now) else s.devices,
       users := if known && User(e) != "" then Touch(s.users, UserKey(User(e), Host(e), Device(e)), now) else s.users)
  }

  /** What the alerts of one event add. */
  function Respond(s: Server, event: Json, fired: seq<Alert>, now: int, window: int): Server {
    var t := ProcessAlerts(s, event, fired, now, window);
    if Delta(fired) > 0 then t.(risk := AddRisk(t.risk, Host(event), Delta(fired))) else t
  }

  function IngestOne(H: Hasher, s: Server, item: Item, window: int): Server {
    var fired := Fired(s, item);
    Respond(Store(H, s.(ruleFires := CountFires(s.ruleFires, fired)), item), item.event, fired, item.env.now, window)
  }

  function IngestFrom(H: Hasher, s: Server, items: seq<Item>, window: int): Server {
    if items == [] then s
    else IngestOne(H, IngestFrom(H, s, items[..|items| - 1], window), items[|items| - 1], window)
  }

  /** A whole run, over any number of batches, from a fresh start. */
  function Run(H: Hasher, items: seq<Item>, window: int): Server {
    IngestFrom(H, FRESH, items, window)
  }

  // ----- The server -----

  class IngestServer {
    const H: Hasher
    const window: int  // ALERT_DEDUP_WINDOW_SECS, read at start-up
    var events: seq<EventRow>
    var audit: seq<AuditTable.Row>
    var devices: seq<Row<DeviceKey, Seen>>
    var users: seq<Row<UserKey, Seen>>
    var alerts: seq<AlertRow>
    var risk: seq<Row<string, int>>
    var eventsIngested: nat
    var alertsFired: map<(string, Rule), nat>
    var ruleFires: map<Rule, nat>
    ghost var suppressed: map<Rule, nat>

    ghost function State(): Server
      reads this
    {
      Server(events, audit, devices, users, alerts, risk, eventsIngested, alertsFired, ruleFires, suppressed)
    }

    constructor (H: Hasher, window: int)
      ensures this.H == H && this.window == window && State() == FRESH
    {
      this.H, this.window := H, window;
      events, audit, devices, users, alerts, risk := [], [], [], [], [], [];
      eventsIngested, alertsFired, ruleFires, suppressed := 0, map[], map[], map[];
    }

    /** Runs the rules in order, counting each that fires. */
    method EvaluateRules(item: Item) returns (fired: seq<Alert>)
      modifies this`ruleFires
      ensures fired == Fired(old(State()), item)
      ensures ruleFires == CountFires(old(ruleFires), fired)
    {
      fired := [];
      for i := 0 to RULE_COUNT
        invariant fired == Evaluate(i, item.event, events, users, item.env)
        invariant ruleFires == CountFires(old(ruleFires), fired)
      {
        var rule := RuleAt(i);
        if Fires(rule, item.event, events, users, item.env) {
          var alert := Alert(rule, Severity(rule));
          assert (fired + [alert])[..|fired|] == fired;
          fired := fired + [alert];
          ruleFires := Bump(ruleFires, rule);
        }
      }
    }

    /** Suppresses an alert that has a recent equal, persists and counts any other. */
    method HandleAlerts(event: Json, fired: seq<Alert>, now: int)
      modifies this`alerts, this`alertsFired, this`suppressed
      ensures State() == ProcessAlerts(old(State()), event, fired, now, window)
    {
      for i := 0 to |fired|
        invariant State() == ProcessAlerts(old(State()), event, fired[..i], now, window)
      {
        assert fired[..i + 1][..i] == fired[..i];
        var alert := fired[i];
        var key := AlertKey(event, alert);
        if HasRecent(alerts, key, now - window) {
          suppressed := Bump(suppressed, alert.rule);
        } else {
          alerts := alerts + [AlertRow(now, key, alert.severity)];
          alertsFired := Bump(alertsFired, (alert.severity, alert.rule));
        }
      }
      assert fired[..|fired|] == fired;
    }

    /** Adds the weights of the alerts to the host's score and returns the new score. */
    method ScoreEvent(host: string, fired: seq<Alert>) returns (score: int)
      modifies this`risk
      ensures risk == if Delta(fired) > 0 then AddRisk(old(risk), host, Delta(fired)) else old(risk)
      ensures score == Score(risk, host) == Score(old(risk), host) + Delta(fired)
      ensures forall other :: other != host ==> Score(risk, other) == Score(old(risk), other)
    {
      var delta := Delta(fired);
      if delta > 0 {
        forall h ensures Score(AddRisk(risk, host, delta), h) == Score(risk, h) + if h == host then delta else 0 {
          RiskAdded(risk, host, delta, h);
        }
        risk := AddRisk(risk, host, delta);
      }
      score := Score(risk, host);
    }

    /** Stores and audits an event and counts it into the baselines. */
    method StoreEvent(item: Item)
      modifies this`events, this`eventsIngested, this`audit, this`devices, this`users
      ensures State() == Store(H, old(State()), item)
    {
      var event, now := item.event, item.env.now;
      events := events + [EventRow(now, event)];
      eventsIngested := eventsIngested + 1;
      audit := AuditTable.AppendRow(H, audit, Host(event), event, now);
      UpdateBaselines(event, now);
    }

    /** Counts an event that names its host and device into the baselines. */
    method UpdateBaselines(event: Json, now: int)
      modifies this`devices, this`users
      ensures devices == if Host(event) == "" || Device(event) == "" then old(devices)
                         else Touch(old(devices), DeviceKey(Host(event), Device(event)), now)
      ensures users == if Host(event) == "" || Device(event) == "" || User(event) == "" then old(users)
                       else Touch(old(users), UserKey(User(event), Host(event), Device(event)), now)
    {
      if Host(event) != "" && Device(event) != "" {
        devices := Touch(devices, DeviceKey(Host(event), Device(event)), now);
        if User(event) != "" {
          users := Touch(users, UserKey(User(event), Host(event), Device(event)), now);
        }
      }
    }

    /** The body of the ingest loop: the rules run before the event is stored. */
    method HandleEvent(item: Item)
      modifies this
      ensures State() == IngestOne(H, old(State()), item, window)
    {
      var fired := EvaluateRules(item);
      StoreEvent(item);
      if fired != [] {
        HandleAlerts(item.event, fired, item.env.now);
        var score := ScoreEvent(Host(item.event), fired);
      }
    }

    method IngestEvents(batch: seq<Item>) returns (stored: nat)
      modifies this
      ensures stored == |batch|
      ensures State() == IngestFrom(H, old(State()), batch, window)
    {
      stored := 0;
      for i := 0 to |batch|
        invariant stored == i
        invariant State() == IngestFrom(H, old(State()), batch[..i], window)
      {
        IngestNext(H, old(State()), batch, i, window);
        HandleEvent(batch[i]);
        stored := stored + 1;
      }
      assert batch[..|batch|] == batch;
    }
  }

  lemma IngestNext(H: Hasher, s: Server, batch: seq<Item>, i: nat, window: int)
    requires i < |batch|
    ensures IngestFrom(H, s, batch[..i + 1], window) == IngestOne(H, IngestFrom(H, s, batch[..i], window), batch[i], window)
  {
    assert batch[..i + 1][..i] == batch[..i];
  }

  // ----- Which part of the state a step leaves alone -----

  lemma {:induction false} ProcessFrame(s: Server, event: Json, fired: seq<Alert>, now: int, window: int)
    ensures var t := ProcessAlerts(s, event, fired, now, window);
            t == s.(alerts := t.alerts, alertsFired := t.alertsFired, suppressed := t.suppressed)
  {
    if fired == [] {
    } else {
      ProcessFrame(s, event, fired[..|fired| - 1], now, window);
    }
  }

  lemma IngestFrame(H: Hasher, s: Server, item: Item, window: int)
    ensures var t := IngestOne(H, s, item, window);
            var u := Store(H, s, item);
            && t.events == u.events && t.audit == u.audit && t.devices == u.devices && t.users == u.users
            && t.eventsIngested == u.eventsIngested
            && t.ruleFires == CountFires(s.ruleFires, Fired(s, item))
  {
    var fired := Fired(s, item);
    ProcessFrame(Store(H, s.(ruleFires := CountFires(s.ruleFires, fired)), item), item.event, fired, item.env.now, window);
  }

  // ----- The audit chain and the stored events -----

  /** The events of one host, in the order in which they came. */
  function EventsOf(items: seq<Item>, host: string): seq<Json> {
    if items == [] then []
    else
      var e := items[|items| - 1].event;
      EventsOf(items[..|items| - 1], host) + if Host(e) == host then [e] else []
  }

  function StoredOf(rows: seq<EventRow>, host: string): seq<Json> {
    if rows == [] then []
    else
      var e := rows[|rows| - 1].event;
      StoredOf(rows[..|rows| - 1], host) + if Host(e) == host then [e] else []
  }

  function AuditedOf(rows: seq<AuditTable.Row>, host: string): seq<Json> {
    var live := AuditTable.HostRows(rows, host);
    seq(|live|, i requires 0 <= i < |live| => live[i].event)
  }

  /** The same run as the audit table sees it. */
  function Appends(items: seq<Item>): seq<AuditTable.Op> {
    seq(|items|, i requires 0 <= i < |items| => AuditTable.Op.Append(Host(items[i].event), items[i].event, items[i].env.now))
  }

  lemma {:induction false} AuditIsTable(H: Hasher, items: seq<Item>, window: int)
    ensures Run(H, items, window).audit == AuditTable.Run(H, Appends(items)).rows
    ensures AuditTable.Run(H, Appends(items)).purged == {}
  {
    if items == [] {
    } else {
      var n := |items| - 1;
      AuditIsTable(H, items[..n], window);
      assert Appends(items)[..n] == Appends(items[..n]);
      IngestFrame(H, Run(H, items[..n], window), items[n], window);
    }
  }

  lemma AppendedSpells(H: Hasher, rows: seq<AuditTable.Row>, e: Json, now: int, host: string)
    ensures AuditedOf(rows + [AuditTable.NewRow(H, rows, Host(e), e, now)], host)
            == AuditedOf(rows, host) + if Host(e) == host then [e] else []
  {
    var r := AuditTable.NewRow(H, rows, Host(e), e, now);
    assert (rows + [r])[..|rows|] == rows;
  }

  lemma {:induction false} AuditSpellsEvents(H: Hasher, items: seq<Item>, host: string)
    requires Trusted(H, AuditTable.Run(H, Appends(items)).built)
    ensures AuditedOf(AuditTable.Run(H, Appends(items)).rows, host) == EventsOf(items, host)
  {
    if items == [] {
    } else {
      var n := |items| - 1;
      var e, now := items[n].event, items[n].env.now;
      assert Appends(items)[..n] == Appends(items[..n]);
      assert Appends(items) == Appends(items[..n]) + [AuditTable.Op.Append(Host(e), e, now)];
      AuditSpellsEvents(H, items[..n], host);
      AuditTable.EveryAppendAddsOneRow(H, Appends(items[..n]), Host(e), e, now);
      AppendedSpells(H, AuditTable.Run(H, Appends(items[..n])).rows, e, now, host);
    }
  }

  /** Every event, as it is stored. */
  function Stored(items: seq<Item>): seq<EventRow> {
    seq(|items|, i requires 0 <= i < |items| => EventRow(items[i].env.now, items[i].event))
  }

  lemma EventsNext(H: Hasher, items: seq<Item>, window: int)
    requires items != []
    ensures var n := |items| - 1;
            Run(H, items, window).events
            == Run(H, items[..n], window).events + [EventRow(items[n].env.now, items[n].event)]
  {
    IngestFrame(H, Run(H, items[..|items| - 1], window), items[|items| - 1], window);
  }

  lemma StoredNext(items: seq<Item>)
    requires items != []
    ensures var n := |items| - 1;
            Stored(items) == Stored(items[..n]) + [EventRow(items[n].env.now, items[n].event)]
  {
  }

  lemma {:induction false} EventsStored(H: Hasher, items: seq<Item>, window: int)
    ensures Run(H, items, window).events == Stored(items)
  {
    if items == [] {
    } else {
      EventsStored(H, items[..|items| - 1], window);
      EventsNext(H, items, window);
      StoredNext(items);
    }
  }

  lemma {:induction false} StoredSpells(items: seq<Item>, host: string)
    ensures StoredOf(Stored(items), host) == EventsOf(items, host)
  {
    if items == [] {
    } else {
      StoredSpells(items[..|items| - 1], host);
      assert Stored(items)[..|items| - 1] == Stored(items[..|items| - 1]);
    }
  }

  /**
    Each host's audit chain spells exactly that host's stored events in order, and the verifier
    accepts it.
   */
  lemma AuditMatchesEvents(H: Hasher, items: seq<Item>, window: int, host: string)
    requires Trusted(H, AuditTable.Run(H, Appends(items)).built)
    ensures var s := Run(H, items, window);
            && AuditedOf(s.audit, host) == StoredOf(s.events, host) == EventsOf(items, host)
            && Accepted(H, AuditTable.AsRecords(AuditTable.HostRows(s.audit, host)))
  {
    AuditIsTable(H, items, window);
    AuditSpellsEvents(H, items, host);
    EventsStored(H, items, window);
    StoredSpells(items, host);
    AuditPurges.LiveRowsAreOneRun(H, Appends(items), host);
    AuditTable.AlwaysSound(H, Appends(items));
    assert AuditTable.HostSound(H, AuditTable.Run(H, Appends(items)), host);
  }

  // ----- Baselines -----

  /** When a host reported a device. */
  function DeviceTimes(items: seq<Item>, key: DeviceKey): seq<int> {
    if items == [] then []
    else
      var item := items[|items| - 1];
      DeviceTimes(items[..|items| - 1], key)
      + if DeviceKey(Host(item.event), Device(item.event)) == key then [item.env.now] else []
  }

  function UserTimes(items: seq<Item>, key: UserKey): seq<int> {
    if items == [] then []
    else
      var item := items[|items| - 1];
      UserTimes(items[..|items| - 1], key)
      + if UserKey(User(item.event), Host(item.event), Device(item.event)) == key then [item.env.now] else []
  }

  function Sightings(times: seq<int>): Option<Seen> {
    if times == [] then None else Some(Seen(times[0], times[|times| - 1], |times|))
  }

  /** Touching one key takes its sightings one further and leaves the others alone. */
  lemma TouchLookup<K>(rows: seq<Row<K, Seen>>, touched: K, now: int, key: K)
    ensures Lookup(Touch(rows, touched, now), key)
            == if key == touched then Some(SeenAgain(Lookup(rows, key), now)) else Lookup(rows, key)
    ensures Unique(rows) ==> Unique(Touch(rows, touched, now))
  {
    PutLookup(rows, touched, SeenAgain(Lookup(rows, touched), now), key);
  }

  lemma SightedAgain(times: seq<int>, now: int)
    ensures Sightings(times + [now]) == Some(SeenAgain(Sightings(times), now))
  {
  }

  lemma {:induction false} BaselinesUnique(H: Hasher, items: seq<Item>, window: int)
    ensures Unique(Run(H, items, window).devices) && Unique(Run(H, items, window).users)
  {
    if items == [] {
    } else {
      var n := |items| - 1;
      var e, now := items[n].event, items[n].env.now;
      BaselinesUnique(H, items[..n], window);
      var s := Run(H, items[..n], window);
      IngestFrame(H, s, items[n], window);
      var device, user := DeviceKey(Host(e), Device(e)), UserKey(User(e), Host(e), Device(e));
      TouchLookup(s.devices, device, now, device);
      TouchLookup(s.users, user, now, user);
    }
  }

  /** The device table over a run, on its own. */
  function DevicesAfter(items: seq<Item>): seq<Row<DeviceKey, Seen>> {
    if items == [] then []
    else
      var e, now := items[|items| - 1].event, items[|items| - 1].env.now;
      var before := DevicesAfter(items[..|items| - 1]);
      if Host(e) != "" && Device(e) != "" then Touch(before, DeviceKey(Host(e), Device(e)), now) else before
  }

  lemma {:induction false} DevicesAlone(H: Hasher, items: seq<Item>, window: int)
    ensures Run(H, items, window).devices == DevicesAfter(items)
  {
    if items == [] {
    } else {
      var n := |items| - 1;
      DevicesAlone(H, items[..n], window);
      IngestFrame(H, Run(H, items[..n], window), items[n], window);
    }
  }

  lemma {:induction false} DevicesSeen(items: seq<Item>, key: DeviceKey)
    requires key.hostname != "" && key.deviceId != ""
    ensures Lookup(DevicesAfter(items), key) == Sightings(DeviceTimes(items, key))
  {
    if items == [] {
    } else {
      var n := |items| - 1;
      var e, now := items[n].event, items[n].env.now;
      DevicesSeen(items[..n], key);
      TouchLookup(DevicesAfter(items[..n]), DeviceKey(Host(e), Device(e)), now, key);
      SightedAgain(DeviceTimes(items[..n], key), now);
    }
  }

  /** The user table over a run, on its own. */
  function UsersAfter(items: seq<Item>): seq<Row<UserKey, Seen>> {
    if items == [] then []
    else
      var e, now := items[|items| - 1].event, items[|items| - 1].env.now;
      var before := UsersAfter(items[..|items| - 1]);
      if Host(e) != "" && Device(e) != "" && User(e) != "" then
        Touch(before, UserKey(User(e), Host(e), Device(e)), now)
      else before
  }

  lemma {:induction false} UsersAlone(H: Hasher, items: seq<Item>, window: int)
    ensures Run(H, items, window).users == UsersAfter(items)
  {
    if items == [] {
    } else {
      var n := |items| - 1;
      UsersAlone(H, items[..n], window);
      IngestFrame(H, Run(H, items[..n], window), items[n], window);
    }
  }

  lemma {:induction false} UsersSeen(items: seq<Item>, key: UserKey)
    ensures Lookup(UsersAfter(items), key)
            == if key.username == "" || key.hostname == "" || key.deviceId == "" then None
               else Sightings(UserTimes(items, key))
  {
    if items == [] {
    } else {
      var n := |items| - 1;
      var e, now := items[n].event, items[n].env.now;
      UsersSeen(items[..n], key);
      TouchLookup(UsersAfter(items[..n]), UserKey(User(e), Host(e), Device(e)), now, key);
      SightedAgain(UserTimes(items[..n], key), now);
    }
  }

  lemma {:induction false} NewIffNoTimes(items: seq<Item>, key: DeviceKey)
    ensures DeviceIsNew(Stored(items), key.hostname, key.deviceId) <==> DeviceTimes(items, key) == []
  {
    if items == [] {
    } else {
      var n := |items| - 1;
      NewIffNoTimes(items[..n], key);
      assert Stored(items) == Stored(items[..n]) + [EventRow(items[n].env.now, items[n].event)];
      assert Stored(items)[n] in Stored(items);
      assert forall r :: r in Stored(items[..n]) ==> r in Stored(items);
    }
  }

  /**
    The baseline has one row for each host and device that ever reported, with the first and the
    last report and their number, and `device_is_new` agrees with it.
   */
  lemma BaselineIsHistory(H: Hasher, items: seq<Item>, window: int, key: DeviceKey)
    requires key.hostname != "" && key.deviceId != ""
    ensures var s := Run(H, items, window);
            && Unique(s.devices)
            && Lookup(s.devices, key) == Sightings(DeviceTimes(items, key))
            && (DeviceIsNew(s.events, key.hostname, key.deviceId) <==> Lookup(s.devices, key).None?)
  {
    BaselinesUnique(H, items, window);
    DevicesAlone(H, items, window);
    DevicesSeen(items, key);
    EventsStored(H, items, window);
    NewIffNoTimes(items, key);
  }

  /** The same for users, once user, host and device are all named. */
  lemma UserBaselineIsHistory(H: Hasher, items: seq<Item>, window: int, key: UserKey)
    ensures var s := Run(H, items, window);
            && Unique(s.users)
            && Lookup(s.users, key)
               == if key.username == "" || key.hostname == "" || key.deviceId == "" then None
                  else Sightings(UserTimes(items, key))
  {
    BaselinesUnique(H, items, window);
    UsersAlone(H, items, window);
    UsersSeen(items, key);
  }

  lemma {:induction false} TimesAfter(items: seq<Item>, i: nat)
    requires i < |items|
    ensures DeviceTimes(items, DeviceKey(Host(items[i].event), Device(items[i].event))) != []
    ensures UserTimes(items, UserKey(User(items[i].event), Host(items[i].event), Device(items[i].event))) != []
  {
    if i == |items| - 1 {
    } else {
      TimesAfter(items[..|items| - 1], i);
    }
  }

  /** `unknown_device` fires at most once for each host and device: never after an earlier event of the pair. */
  lemma UnknownDeviceOnce(H: Hasher, items: seq<Item>, window: int, i: nat, j: nat)
    requires i < j < |items|
    requires Host(items[i].event) == Host(items[j].event) && Device(items[i].event) == Device(items[j].event)
    ensures Occurs(Fired(Run(H, items[..j], window), items[j]), UnknownDevice) == 0
  {
    var s := Run(H, items[..j], window);
    EventsStored(H, items[..j], window);
    NewIffNoTimes(items[..j], DeviceKey(Host(items[j].event), Device(items[j].event)));
    TimesAfter(items[..j], i);
    OneAlertPerRule(RULE_COUNT, items[j].event, s.events, s.users, items[j].env, UnknownDevice);
  }

  /**
    `user_unknown_device` fires for a user at most once for each host and device, exactly as long
    as both are named: without a name the baseline learns nothing and the rule keeps firing.
   */
  lemma UserUnknownDeviceOnce(H: Hasher, items: seq<Item>, window: int, i: nat, j: nat)
    requires i < j < |items| && User(items[j].event) == User(items[i].event) != ""
    requires Host(items[i].event) == Host(items[j].event) && Device(items[i].event) == Device(items[j].event)
    requires EventType(items[j].event) == "connected"
    ensures Occurs(Fired(Run(H, items[..j], window), items[j]), UserUnknownDevice) == 0
            <==> Host(items[j].event) != "" && Device(items[j].event) != ""
  {
    var s := Run(H, items[..j], window);
    UsersAlone(H, items[..j], window);
    UsersSeen(items[..j], UserKey(User(items[j].event), Host(items[j].event), Device(items[j].event)));
    TimesAfter(items[..j], i);
    OneAlertPerRule(RULE_COUNT, items[j].event, s.events, s.users, items[j].env, UserUnknownDevice);
  }

  // ----- Conservation -----

  /** The persisted alerts of one rule. */
  function Persisted(alerts: seq<AlertRow>, rule: Rule): nat {
    if alerts == [] then 0
    else Persisted(alerts[..|alerts| - 1], rule) + if alerts[|alerts| - 1].key.rule == rule then 1 else 0
  }

  lemma {:induction false} FiresCounted(m: map<Rule, nat>, fired: seq<Alert>, rule: Rule)
    ensures Count(CountFires(m, fired), rule) == Count(m, rule) + Occurs(fired, rule)
  {
    if fired == [] {
    } else {
      FiresCounted(m, fired[..|fired| - 1], rule);
    }
  }

  /** What the counters and the alerts table gained between two states, for one rule. */
  ghost predicate Gained(s: Server, t: Server, rule: Rule, n: nat) {
    var inserted := Persisted(t.alerts, rule) - Persisted(s.alerts, rule);
    && inserted + Count(t.suppressed, rule) - Count(s.suppressed, rule) == n
    && Count(t.alertsFired, (Severity(rule), rule)) - Count(s.alertsFired, (Severity(rule), rule)) == inserted
  }

  /** One alert is persisted and counted, or counted as suppressed. */
  lemma OneCounted(s: Server, event: Json, a: Alert, now: int, window: int, rule: Rule)
    requires a.severity == Severity(a.rule)
    ensures Gained(s, ProcessOne(s, event, a, now, window), rule, if a.rule == rule then 1 else 0)
  {
    var row := AlertRow(now, AlertKey(event, a), a.severity);
    if HasRecent(s.alerts, AlertKey(event, a), now - window) {
      assert Count(Bump(s.suppressed, a.rule), rule) == Count(s.suppressed, rule) + if rule == a.rule then 1 else 0;
    } else {
      PersistedOne(s.alerts, row, rule);
      var counted := Bump(s.alertsFired, (a.severity, a.rule));
      assert Count(counted, (Severity(rule), rule))
          == Count(s.alertsFired, (Severity(rule), rule)) + if rule == a.rule then 1 else 0;
    }
  }

  lemma PersistedOne(alerts: seq<AlertRow>, row: AlertRow, rule: Rule)
    ensures Persisted(alerts + [row], rule) == Persisted(alerts, rule) + if row.key.rule == rule then 1 else 0
  {
    assert (alerts + [row])[..|alerts|] == alerts;
  }

  lemma {:induction false} AllCounted(s: Server, event: Json, fired: seq<Alert>, now: int, window: int, rule: Rule)
    requires WellRated(fired)
    ensures Gained(s, ProcessAlerts(s, event, fired, now, window), rule, Occurs(fired, rule))
  {
    if fired == [] {
    } else {
      var n := |fired| - 1;
      AllCounted(s, event, fired[..n], now, window, rule);
      OneCounted(ProcessAlerts(s, event, fired[..n], now, window), event, fired[n], now, window, rule);
    }
  }

  lemma IngestCounted(H: Hasher, s: Server, item: Item, window: int, rule: Rule)
    ensures Gained(s, IngestOne(H, s, item, window), rule, Occurs(Fired(s, item), rule))
  {
    var fired := Fired(s, item);
    var stored := Store(H, s.(ruleFires := CountFires(s.ruleFires, fired)), item);
    OneAlertPerRule(RULE_COUNT, item.event, s.events, s.users, item.env, rule);
    AllCounted(stored, item.event, fired, item.env.now, window, rule);
  }

  /** How many events connect a device that its host has not reported before in any way. */
  function FirstConnects(items: seq<Item>): nat {
    if items == [] then 0
    else
      var before, e := items[..|items| - 1], items[|items| - 1].event;
      FirstConnects(before)
      + if EventType(e) == "connected" && DeviceTimes(before, DeviceKey(Host(e), Device(e))) == [] then 1 else 0
  }

  /**
    `unknown_device` has fired exactly once for each pair of host and device whose first event was
    a connection: rules run before the event is stored, and a pair first seen otherwise never fires.
   */
  lemma {:induction false} UnknownDeviceFirings(H: Hasher, items: seq<Item>, window: int)
    ensures Count(Run(H, items, window).ruleFires, UnknownDevice) == FirstConnects(items)
  {
    if items == [] {
    } else {
      var n := |items| - 1;
      UnknownDeviceFirings(H, items[..n], window);
      var s := Run(H, items[..n], window);
      IngestFrame(H, s, items[n], window);
      FiresCounted(s.ruleFires, Fired(s, items[n]), UnknownDevice);
      EventsStored(H, items[..n], window);
      FiresOnFirstConnect(s, items[..n], items[n]);
    }
  }

  lemma FiresOnFirstConnect(s: Server, items: seq<Item>, item: Item)
    requires s.events == Stored(items)
    ensures Occurs(Fired(s, item), UnknownDevice)
            == if EventType(item.event) == "connected"
                  && DeviceTimes(items, DeviceKey(Host(item.event), Device(item.event))) == []
               then 1 else 0
  {
    NewIffNoTimes(items, DeviceKey(Host(item.event), Device(item.event)));
    OneAlertPerRule(RULE_COUNT, item.event, s.events, s.users, item.env, UnknownDevice);
  }

  /**
    For every rule, the times it fired are its persisted alerts and its suppressed ones, and its
    persisted alerts are the alerts counted as fired.
   */
  lemma {:induction false} FiringsConserved(H: Hasher, items: seq<Item>, window: int, rule: Rule)
    ensures var s := Run(H, items, window);
            && Count(s.ruleFires, rule) == Persisted(s.alerts, rule) + Count(s.suppressed, rule)
            && Count(s.alertsFired, (Severity(rule), rule)) == Persisted(s.alerts, rule)
            && s.eventsIngested == |items|
  {
    if items == [] {
    } else {
      var n := |items| - 1;
      FiringsConserved(H, items[..n], window, rule);
      var s := Run(H, items[..n], window);
      IngestFrame(H, s, items[n], window);
      FiresCounted(s.ruleFires, Fired(s, items[n]), rule);
      IngestCounted(H, s, items[n], window, rule);
    }
  }

  /** The sum over the first `n` rules of weight times firings. */
  function Weighted(m: map<Rule, nat>, n: nat): nat
    requires n <= RULE_COUNT
  {
    if n == 0 then 0 else Weighted(m, n - 1) + Weight(RuleAt(n - 1)) * Count(m, RuleAt(n - 1))
  }

  lemma {:induction false} WeightedBump(m: map<Rule, nat>, rule: Rule, n: nat)
    requires n <= RULE_COUNT
    ensures Weighted(Bump(m, rule), n) == Weighted(m, n) + if Place(rule) < n then Weight(rule) else 0
  {
    if n == 0 {
    } else {
      WeightedBump(m, rule, n - 1);
      PlaceOf(n - 1, rule);
      OneMoreFiring(Weight(RuleAt(n - 1)), Count(m, RuleAt(n - 1)));
    }
  }

  lemma OneMoreFiring(w: nat, c: nat)
    ensures w * (c + 1) == w * c + w
  {
  }

  lemma {:induction false} WeightedFires(m: map<Rule, nat>, fired: seq<Alert>)
    ensures Weighted(CountFires(m, fired), RULE_COUNT) == Weighted(m, RULE_COUNT) + Delta(fired)
  {
    if fired == [] {
    } else {
      var n := |fired| - 1;
      WeightedFires(m, fired[..n]);
      WeightedBump(CountFires(m, fired[..n]), fired[n].rule, RULE_COUNT);
    }
  }

  lemma {:induction false} WeightedEmpty(n: nat)
    requires n <= RULE_COUNT
    ensures Weighted(map[], n) == 0
  {
    if n == 0 {
    } else {
      WeightedEmpty(n - 1);
    }
  }

  /** Adding risk to one host leaves the others alone. */
  lemma RiskAdded(rows: seq<Row<string, int>>, host: string, delta: int, other: string)
    ensures Score(AddRisk(rows, host, delta), other) == Score(rows, other) + if other == host then delta else 0
  {
    PutLookup(rows, host, Score(rows, host) + delta, other);
  }

  lemma AddRiskSum(rows: seq<Row<string, int>>, host: string, delta: int)
    requires Unique(rows)
    ensures Sum(AddRisk(rows, host, delta)) == Sum(rows) + delta && Unique(AddRisk(rows, host, delta))
  {
    PutSum(rows, host, Score(rows, host) + delta);
    PutLookup(rows, host, Score(rows, host) + delta, host);
  }

  lemma IngestRisk(H: Hasher, s: Server, item: Item, window: int)
    ensures IngestOne(H, s, item, window).risk
            == if Delta(Fired(s, item)) > 0 then AddRisk(s.risk, Host(item.event), Delta(Fired(s, item))) else s.risk
  {
    var fired := Fired(s, item);
    ProcessFrame(Store(H, s.(ruleFires := CountFires(s.ruleFires, fired)), item), item.event, fired, item.env.now, window);
  }

  /**
    From a fresh start, the risk scores summed over all hosts are the sum over the rules of weight
    times firings, suppressed alerts included; each host has one score.
   */
  lemma {:induction false} RiskConserved(H: Hasher, items: seq<Item>, window: int)
    ensures var s := Run(H, items, window);
            Sum(s.risk) == Weighted(s.ruleFires, RULE_COUNT) && Unique(s.risk)
  {
    if items == [] {
      WeightedEmpty(RULE_COUNT);
    } else {
      var n := |items| - 1;
      RiskConserved(H, items[..n], window);
      var s, item := Run(H, items[..n], window), items[n];
      IngestFrame(H, s, item, window);
      IngestRisk(H, s, item, window);
      WeightedFires(s.ruleFires, Fired(s, item));
      AddRiskSum(s.risk, Host(item.event), Delta(Fired(s, item)));
    }
  }

  // ----- Deduplication over a whole run -----

  /** `ops` and then the firings of one event, checked and inserted at the same reading of the clock. */
  function AndFire(ops: seq<Alerts.Op>, event: Json, fired: seq<Alert>, now: int): seq<Alerts.Op> {
    if fired == [] then ops
    else
      var a := fired[|fired| - 1];
      AndFire(ops, event, fired[..|fired| - 1], now) + [Fire(AlertKey(event, a), a.severity, now, now)]
  }

  /** The same run as the alerts table sees it. */
  function AlertOps(H: Hasher, items: seq<Item>, window: int): seq<Alerts.Op> {
    if items == [] then []
    else
      var before, item := items[..|items| - 1], items[|items| - 1];
      AndFire(AlertOps(H, before, window), item.event, Fired(Run(H, before, window), item), item.env.now)
  }

  lemma OneIsRun(s: Server, event: Json, a: Alert, now: int, window: int, ops: seq<Alerts.Op>)
    requires Alerts.Run(ops, window) == Alerts.State(s.alerts, s.alerts)
    ensures var t := ProcessOne(s, event, a, now, window);
            Alerts.Run(ops + [Fire(AlertKey(event, a), a.severity, now, now)], window) == Alerts.State(t.alerts, t.alerts)
  {
    var more := ops + [Fire(AlertKey(event, a), a.severity, now, now)];
    assert more[..|more| - 1] == ops;
  }

  lemma {:induction false} ProcessIsRun(s: Server, event: Json, fired: seq<Alert>, now: int, window: int, ops: seq<Alerts.Op>)
    requires Alerts.Run(ops, window) == Alerts.State(s.alerts, s.alerts)
    ensures var t := ProcessAlerts(s, event, fired, now, window);
            Alerts.Run(AndFire(ops, event, fired, now), window) == Alerts.State(t.alerts, t.alerts)
  {
    if fired == [] {
    } else {
      var n := |fired| - 1;
      ProcessIsRun(s, event, fired[..n], now, window, ops);
      OneIsRun(ProcessAlerts(s, event, fired[..n], now, window), event, fired[n], now, window,
               AndFire(ops, event, fired[..n], now));
    }
  }

  lemma {:induction false} AlertsAreRun(H: Hasher, items: seq<Item>, window: int)
    ensures var s := Run(H, items, window);
            Alerts.Run(AlertOps(H, items, window), window) == Alerts.State(s.alerts, s.alerts)
  {
    if items == [] {
    } else {
      var n := |items| - 1;
      AlertsAreRun(H, items[..n], window);
      var s, item := Run(H, items[..n], window), items[n];
      var fired := Fired(s, item);
      var stored := Store(H, s.(ruleFires := CountFires(s.ruleFires, fired)), item);
      ProcessIsRun(stored, item.event, fired, item.env.now, window, AlertOps(H, items[..n], window));
    }
  }

  /** Nothing but firings, each checked and inserted at the same reading of the clock. */
  ghost predicate OnlyFirings(ops: seq<Alerts.Op>) {
    forall op :: op in ops ==> op.Fire? && op.checkedAt == op.insertedAt
  }

  lemma {:induction false} AndFireOnly(ops: seq<Alerts.Op>, event: Json, fired: seq<Alert>, now: int)
    requires OnlyFirings(ops)
    ensures OnlyFirings(AndFire(ops, event, fired, now))
  {
    if fired == [] {
    } else {
      AndFireOnly(ops, event, fired[..|fired| - 1], now);
    }
  }

  lemma {:induction false} AlertOpsOnlyFire(H: Hasher, items: seq<Item>, window: int)
    ensures OnlyFirings(AlertOps(H, items, window))
  {
    if items == [] {
    } else {
      var before, item := items[..|items| - 1], items[|items| - 1];
      AlertOpsOnlyFire(H, before, window);
      AndFireOnly(AlertOps(H, before, window), item.event, Fired(Run(H, before, window), item), item.env.now);
    }
  }

  /** In every run, on any clock, no alert is persisted again within the window. */
  lemma IngestDeduplicates(H: Hasher, items: seq<Item>, window: int)
    ensures Apart(Run(H, items, window).alerts, window)
  {
    var ops := AlertOps(H, items, window);
    AlertsAreRun(H, items, window);
    AlertOpsOnlyFire(H, items, window);
    assert forall i :: 0 <= i < |ops| ==> ops[i] in ops;
    AlertsAreApart(ops, window);
  }
}
