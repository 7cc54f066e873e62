/** The detection rules (server/detection/rules.py) and the tables they read. */
module Rules {
  import opened Data
  import opened Tables
  import opened Alerts

  /** A row of `events`, in id order in the table; the other columns are fields of the event. */
  datatype EventRow = EventRow(receivedAt: int, event: Json)

  datatype DeviceKey = DeviceKey(hostname: string, deviceId: string)
  datatype UserKey = UserKey(username: string, hostname: string, deviceId: string)

  /** First and last sighting, and how many there were. */
  datatype Seen = Seen(firstSeen: int, lastSeen: int, seenCount: nat)

  datatype Alert = Alert(rule: Rule, severity: string)

  /**
    What the rules read besides the tables: one clock reading for the event, the thresholds, and
    whether the after-hours window, the honeypot list and the threat feed match.
   */
  datatype Env = Env(
    now: int, volumeThreshold: int, rapidCycleCount: int, rapidCycleWindow: int,
    afterHours: bool, honeypot: bool, malicious: bool)

  function Host(e: Json): string { Field(e, "hostname") }
  function Device(e: Json): string { Field(e, "device_id") }
  function User(e: Json): string { Field(e, "user") }
  function EventType(e: Json): string { Field(e, "event_type") }

  /** Where an event, however long, has what the rules read. */
  lemma EventFields(host: string, device: string, user: string, eventType: string, bytes: int, rest: map<string, Json>)
    ensures var e := Obj(rest["hostname" := Str(host)]["device_id" := Str(device)]["user" := Str(user)]
                             ["event_type" := Str(eventType)]["transfer_bytes" := Num(bytes)]);
            && Host(e) == host && Device(e) == device && User(e) == user && EventType(e) == eventType
            && Amount(e, "transfer_bytes") == bytes
  {
  }

  predicate DeviceIsNew(events: seq<EventRow>, host: string, device: string) {
    forall r :: r in events ==> !(Host(r.event) == host && Device(r.event) == device)
  }

  predicate UserDeviceIsNew(users: seq<Row<UserKey, Seen>>, key: UserKey) {
    Lookup(users, key).None?
  }

  /** `sum(int(r["transfer_bytes"]) for r in get_recent_events(host, …))`. */
  function RecentBytes(events: seq<EventRow>, host: string, cutoff: int): int {
    if events == [] then 0
    else
      var r := events[|events| - 1];
      RecentBytes(events[..|events| - 1], host, cutoff)
      + if Host(r.event) == host && r.receivedAt >= cutoff then Amount(r.event, "transfer_bytes") else 0
  }

  function RecentCycles(events: seq<EventRow>, host: string, cutoff: int): nat {
    if events == [] then 0
    else
      var r := events[|events| - 1];
      RecentCycles(events[..|events| - 1], host, cutoff)
      + if Host(r.event) == host && r.receivedAt >= cutoff && EventType(r.event) in ["connected", "disconnected"]
        then 1 else 0
  }

  predicate SeenElsewhere(events: seq<EventRow>, host: string, device: string, cutoff: int) {
    exists r :: r in events && Device(r.event) == device && r.receivedAt >= cutoff && Host(r.event) != host
  }

  const RULE_COUNT: nat := 8

  /** The place of a rule in `_RULES`. */
  function Place(rule: Rule): (i: nat)
    ensures i < RULE_COUNT && RuleAt(i) == rule
  {
    match rule
    case AfterHoursDevice => 0
    case UnknownDevice => 1
    case HighVolumeTransfer => 2
    case RapidCycle => 3
    case CrossAgentDevice => 4
    case HoneypotDevice => 5
    case KnownMaliciousDevice => 6
    case UserUnknownDevice => 7
  }

  function RuleAt(i: nat): (rule: Rule)
    requires i < RULE_COUNT
  {
    match i
    case 0 => AfterHoursDevice
    case 1 => UnknownDevice
    case 2 => HighVolumeTransfer
    case 3 => RapidCycle
    case 4 => CrossAgentDevice
    case 5 => HoneypotDevice
    case 6 => KnownMaliciousDevice
    case _ => UserUnknownDevice
  }

  lemma PlaceOf(i: nat, rule: Rule)
    requires i < RULE_COUNT
    ensures RuleAt(i) == rule <==> Place(rule) == i
  {
  }

  function Severity(rule: Rule): string {
    match rule
    case UnknownDevice => "MEDIUM"
    case AfterHoursDevice | RapidCycle | UserUnknownDevice => "HIGH"
    case _ => "CRITICAL"
  }

  /** Whether a rule fires on an event that is not stored yet. */
  predicate Fires(rule: Rule, e: Json, events: seq<EventRow>, users: seq<Row<UserKey, Seen>>, env: Env) {
    match rule
    case AfterHoursDevice => EventType(e) == "connected" && env.afterHours
    case UnknownDevice => EventType(e) == "connected" && DeviceIsNew(events, Host(e), Device(e))
    case HighVolumeTransfer =>
      && Amount(e, "transfer_bytes") != 0
      && RecentBytes(events, Host(e), env.now - 3600) + Amount(e, "transfer_bytes") >= env.volumeThreshold
    case RapidCycle =>
      RecentCycles(events, Host(e), env.now - env.rapidCycleWindow) + 1 >= env.rapidCycleCount
    case CrossAgentDevice =>
      Device(e) != "" && Host(e) != "" && SeenElsewhere(events, Host(e), Device(e), env.now - 3600)
    case HoneypotDevice => Device(e) != "" && env.honeypot
    case KnownMaliciousDevice => EventType(e) == "connected" && Device(e) != "" && env.malicious
    case UserUnknownDevice =>
      EventType(e) == "connected" && User(e) != "" && UserDeviceIsNew(users, UserKey(User(e), Host(e), Device(e)))
  }

  function Raise(alerts: seq<Alert>, rule: Rule, fires: bool): seq<Alert> {
    if fires then alerts + [Alert(rule, Severity(rule))] else alerts
  }

  /** The alerts of the first `n` rules, in rule order. */
  function Evaluate(n: nat, e: Json, events: seq<EventRow>, users: seq<Row<UserKey, Seen>>, env: Env): seq<Alert>
    requires n <= RULE_COUNT
  {
    if n == 0 then []
    else Raise(Evaluate(n - 1, e, events, users, env), RuleAt(n - 1), Fires(RuleAt(n - 1), e, events, users, env))
  }

  /** How often a rule occurs among the alerts of one event. */
  function Occurs(fired: seq<Alert>, rule: Rule): nat {
    if fired == [] then 0
    else Occurs(fired[..|fired| - 1], rule) + if fired[|fired| - 1].rule == rule then 1 else 0
  }

  ghost predicate WellRated(fired: seq<Alert>) {
    forall i :: 0 <= i < |fired| ==> fired[i].severity == Severity(fired[i].rule)
  }

  lemma RaiseOccurs(alerts: seq<Alert>, raised: Rule, fires: bool, rule: Rule)
    ensures Occurs(Raise(alerts, raised, fires), rule) == Occurs(alerts, rule) + if fires && raised == rule then 1 else 0
  {
    assert (alerts + [Alert(raised, Severity(raised))])[..|alerts|] == alerts;
  }

  lemma OneRuleFurther(before: seq<Alert>, n: nat, fires: bool, rule: Rule, ruleFires: bool)
    requires 0 < n <= RULE_COUNT
    requires Occurs(before, rule) == if Place(rule) < n - 1 && ruleFires then 1 else 0
    requires RuleAt(n - 1) == rule ==> (fires <==> ruleFires)
    ensures Occurs(Raise(before, RuleAt(n - 1), fires), rule) == if Place(rule) < n && ruleFires then 1 else 0
  {
    PlaceOf(n - 1, rule);
    RaiseOccurs(before, RuleAt(n - 1), fires, rule);
  }

  lemma {:induction false} EvaluateRates(n: nat, e: Json, events: seq<EventRow>, users: seq<Row<UserKey, Seen>>, env: Env)
    requires n <= RULE_COUNT
    ensures WellRated(Evaluate(n, e, events, users, env))
  {
    if n == 0 {
    } else {
      EvaluateRates(n - 1, e, events, users, env);
    }
  }

  lemma {:induction false} EvaluateOccurs(n: nat, e: Json, events: seq<EventRow>, users: seq<Row<UserKey, Seen>>, env: Env, rule: Rule)
    requires n <= RULE_COUNT
    ensures Occurs(Evaluate(n, e, events, users, env), rule)
            == if Place(rule) < n && Fires(rule, e, events, users, env) then 1 else 0
  {
    if n == 0 {
    } else {
      EvaluateOccurs(n - 1, e, events, users, env, rule);
      OneRuleFurther(Evaluate(n - 1, e, events, users, env), n, Fires(RuleAt(n - 1), e, events, users, env),
                     rule, Fires(rule, e, events, users, env));
    }
  }

  /** Each rule that fires raises one alert, with its own severity, and no other rule does. */
  lemma OneAlertPerRule(n: nat, e: Json, events: seq<EventRow>, users: seq<Row<UserKey, Seen>>, env: Env, rule: Rule)
    requires n <= RULE_COUNT
    ensures WellRated(Evaluate(n, e, events, users, env))
    ensures Occurs(Evaluate(n, e, events, users, env), rule)
            == if Place(rule) < n && Fires(rule, e, events, users, env) then 1 else 0
  {
    EvaluateRates(n, e, events, users, env);
    EvaluateOccurs(n, e, events, users, env, rule);
  }

  // ----- All rules at once -----

  function One(rule: Rule, severity: string, fires: bool): seq<Alert> {
    if fires then [Alert(rule, severity)] else []
  }

  lemma EvaluateNext(n: nat, e: Json, events: seq<EventRow>, users: seq<Row<UserKey, Seen>>, env: Env)
    requires n < RULE_COUNT
    ensures Evaluate(n + 1, e, events, users, env)
            == Evaluate(n, e, events, users, env)
               + One(RuleAt(n), Severity(RuleAt(n)), Fires(RuleAt(n), e, events, users, env))
  {
    var before := Evaluate(n, e, events, users, env);
    assert before + [] == before;
  }

  lemma EvaluateFour(e: Json, events: seq<EventRow>, users: seq<Row<UserKey, Seen>>, env: Env)
    ensures Evaluate(4, e, events, users, env)
            == One(AfterHoursDevice, "HIGH", Fires(AfterHoursDevice, e, events, users, env))
               + One(UnknownDevice, "MEDIUM", Fires(UnknownDevice, e, events, users, env))
               + One(HighVolumeTransfer, "CRITICAL", Fires(HighVolumeTransfer, e, events, users, env))
               + One(RapidCycle, "HIGH", Fires(RapidCycle, e, events, users, env))
  {
    EvaluateNext(0, e, events, users, env);
    EvaluateNext(1, e, events, users, env);
    EvaluateNext(2, e, events, users, env);
    EvaluateNext(3, e, events, users, env);
    var first := One(AfterHoursDevice, "HIGH", Fires(AfterHoursDevice, e, events, users, env));
    assert Evaluate(0, e, events, users, env) == [] && [] + first == first;
  }

  /** The rules run in this order, and their alerts have these severities. */
  lemma EvaluateAll(e: Json, events: seq<EventRow>, users: seq<Row<UserKey, Seen>>, env: Env)
    ensures Evaluate(RULE_COUNT, e, events, users, env)
            == One(AfterHoursDevice, "HIGH", Fires(AfterHoursDevice, e, events, users, env))
               + One(UnknownDevice, "MEDIUM", Fires(UnknownDevice, e, events, users, env))
               + One(HighVolumeTransfer, "CRITICAL", Fires(HighVolumeTransfer, e, events, users, env))
               + One(RapidCycle, "HIGH", Fires(RapidCycle, e, events, users, env))
               + One(CrossAgentDevice, "CRITICAL", Fires(CrossAgentDevice, e, events, users, env))
               + One(HoneypotDevice, "CRITICAL", Fires(HoneypotDevice, e, events, users, env))
               + One(KnownMaliciousDevice, "CRITICAL", Fires(KnownMaliciousDevice, e, events, users, env))
               + One(UserUnknownDevice, "HIGH", Fires(UserUnknownDevice, e, events, users, env))
  {
    EvaluateFour(e, events, users, env);
    EvaluateNext(4, e, events, users, env);
    EvaluateNext(5, e, events, users, env);
    EvaluateNext(6, e, events, users, env);
    EvaluateNext(7, e, events, users, env);
  }
}
