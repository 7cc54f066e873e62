/**
  What an ingest run has done, said by the events alone: which rules fired on each, whose alerts
  were persisted, and whose risk grew (server/detection/rules.py, server/alert_manager.py and
  server/scoring/risk_scoring.py over the tables of server/database.py).
 */
module IngestHistory {
  import opened Data
  import opened Tables
  import opened Rules
  import opened Alerts
  import opened HashChain
  import opened Ingest

  // ----- What came before an event -----

  ghost predicate Before(items: seq<Item>, host: string, device: string) {
    exists i :: 0 <= i < |items| && Host(items[i].event) == host && Device(items[i].event) == device
  }

  ghost predicate UserBefore(items: seq<Item>, user: string, host: string, device: string) {
    exists i :: 0 <= i < |items| && User(items[i].event) == user
                && Host(items[i].event) == host && Device(items[i].event) == device
  }

  /** Was the device on another host since? */
  ghost predicate ElsewhereSince(items: seq<Item>, host: string, device: string, since: int) {
    exists i :: 0 <= i < |items| && Device(items[i].event) == device && Host(items[i].event) != host
                && items[i].env.now >= since
  }

  /** The bytes that the host has transferred since. */
  function BytesSince(items: seq<Item>, host: string, since: int): int {
    if items == [] then 0
    else
      var item := items[0];
      (if Host(item.event) == host && item.env.now >= since then Amount(item.event, "transfer_bytes") else 0)
      + BytesSince(items[1..], host, since)
  }

  predicate CycleSince(item: Item, host: string, since: int) {
    && Host(item.event) == host && item.env.now >= since
    && (EventType(item.event) == "connected" || EventType(item.event) == "disconnected")
  }

  function CyclesSince(items: seq<Item>, host: string, since: int): set<nat> {
    set i: nat | i < |items| && CycleSince(items[i], host, since)
  }

  /** Do an event and the events before it call for this rule? */
  ghost predicate Calls(rule: Rule, items: seq<Item>, item: Item) {
    var e, env := item.event, item.env;
    match rule
    case AfterHoursDevice => EventType(e) == "connected" && env.afterHours
    case UnknownDevice => EventType(e) == "connected" && !Before(items, Host(e), Device(e))
    case HighVolumeTransfer =>
      && Amount(e, "transfer_bytes") != 0
      && BytesSince(items + [item], Host(e), env.now - 3600) >= env.volumeThreshold
    case RapidCycle => |CyclesSince(items, Host(e), env.now - env.rapidCycleWindow)| + 1 >= env.rapidCycleCount
    case CrossAgentDevice =>
      Host(e) != "" && Device(e) != "" && ElsewhereSince(items, Host(e), Device(e), env.now - 3600)
    case HoneypotDevice => Device(e) != "" && env.honeypot
    case KnownMaliciousDevice => EventType(e) == "connected" && Device(e) != "" && env.malicious
    case UserUnknownDevice =>
      && EventType(e) == "connected" && User(e) != ""
      && !(Host(e) != "" && Device(e) != "" && UserBefore(items, User(e), Host(e), Device(e)))
  }

  /** The alerts that an event raises after these. */
  ghost function Firings(items: seq<Item>, item: Item): seq<Alert> {
    One(AfterHoursDevice, "HIGH", Calls(AfterHoursDevice, items, item))
    + One(UnknownDevice, "MEDIUM", Calls(UnknownDevice, items, item))
    + One(HighVolumeTransfer, "CRITICAL", Calls(HighVolumeTransfer, items, item))
    + One(RapidCycle, "HIGH", Calls(RapidCycle, items, item))
    + One(CrossAgentDevice, "CRITICAL", Calls(CrossAgentDevice, items, item))
    + One(HoneypotDevice, "CRITICAL", Calls(HoneypotDevice, items, item))
    + One(KnownMaliciousDevice, "CRITICAL", Calls(KnownMaliciousDevice, items, item))
    + One(UserUnknownDevice, "HIGH", Calls(UserUnknownDevice, items, item))
  }

  // ----- The rules against the history -----

  lemma NewIffNotBefore(items: seq<Item>, host: string, device: string)
    ensures DeviceIsNew(Stored(items), host, device) <==> !Before(items, host, device)
  {
    if i :| 0 <= i < |items| && Host(items[i].event) == host && Device(items[i].event) == device {
      assert Stored(items)[i] in Stored(items);
    }
  }

  lemma {:induction false} BytesConcat(a: seq<Item>, b: seq<Item>, host: string, since: int)
    ensures BytesSince(a + b, host, since) == BytesSince(a, host, since) + BytesSince(b, host, since)
  {
    if a == [] {
      assert a + b == b;
    } else {
      assert (a + b)[1..] == a[1..] + b;
      BytesConcat(a[1..], b, host, since);
    }
  }

  lemma {:induction false} RecentBytesAre(items: seq<Item>, host: string, since: int)
    ensures RecentBytes(Stored(items), host, since) == BytesSince(items, host, since)
  {
    if items == [] {
    } else {
      var n := |items| - 1;
      RecentBytesAre(items[..n], host, since);
      assert items == items[..n] + [items[n]];
      BytesConcat(items[..n], [items[n]], host, since);
      StoredNext(items);
    }
  }

  lemma {:induction false} RecentCyclesAre(items: seq<Item>, host: string, since: int)
    ensures RecentCycles(Stored(items), host, since) == |CyclesSince(items, host, since)|
  {
    if items == [] {
      assert CyclesSince(items, host, since) == {};
    } else {
      var n := |items| - 1;
      RecentCyclesAre(items[..n], host, since);
      StoredNext(items);
      OneMoreCycle(items, host, since);
    }
  }

  lemma OneMoreCycle(items: seq<Item>, host: string, since: int)
    requires items != []
    ensures var n := |items| - 1;
            |CyclesSince(items, host, since)|
            == |CyclesSince(items[..n], host, since)| + if CycleSince(items[n], host, since) then 1 else 0
  {
    var n := |items| - 1;
    var before, after := CyclesSince(items[..n], host, since), CyclesSince(items, host, since);
    assert n !in before;
    assert after == if CycleSince(items[n], host, since) then before + {n} else before;
  }

  lemma ElsewhereIffSeen(items: seq<Item>, host: string, device: string, since: int)
    ensures SeenElsewhere(Stored(items), host, device, since) <==> ElsewhereSince(items, host, device, since)
  {
    if i :| 0 <= i < |items| && Device(items[i].event) == device && Host(items[i].event) != host
            && items[i].env.now >= since {
      assert Stored(items)[i] in Stored(items);
    }
  }

  lemma {:induction false} NoUserTimes(items: seq<Item>, key: UserKey)
    ensures UserTimes(items, key) == [] <==> !UserBefore(items, key.username, key.hostname, key.deviceId)
  {
    if items == [] {
    } else {
      var n := |items| - 1;
      NoUserTimes(items[..n], key);
      assert forall i :: 0 <= i < n ==> items[..n][i] == items[i];
    }
  }

  lemma UserIsNewIff(H: Hasher, items: seq<Item>, window: int, user: string, host: string, device: string)
    requires user != ""
    ensures UserDeviceIsNew(Ingest.Run(H, items, window).users, UserKey(user, host, device))
            <==> !(host != "" && device != "" && UserBefore(items, user, host, device))
  {
    UsersAlone(H, items, window);
    UsersSeen(items, UserKey(user, host, device));
    NoUserTimes(items, UserKey(user, host, device));
  }

  lemma BytesWith(items: seq<Item>, item: Item, since: int)
    requires item.env.now >= since
    ensures BytesSince(items + [item], Host(item.event), since)
            == RecentBytes(Stored(items), Host(item.event), since) + Amount(item.event, "transfer_bytes")
  {
    RecentBytesAre(items, Host(item.event), since);
    BytesConcat(items, [item], Host(item.event), since);
    assert [item][1..] == [];
  }

  lemma UserRuleIff(items: seq<Item>, events: seq<EventRow>, users: seq<Row<UserKey, Seen>>, item: Item)
    requires var e := item.event;
             User(e) != "" ==>
               (UserDeviceIsNew(users, UserKey(User(e), Host(e), Device(e)))
                <==> !(Host(e) != "" && Device(e) != "" && UserBefore(items, User(e), Host(e), Device(e))))
    ensures Fires(UserUnknownDevice, item.event, events, users, item.env) <==> Calls(UserUnknownDevice, items, item)
  {
  }

  lemma OtherRulesIff(items: seq<Item>, users: seq<Row<UserKey, Seen>>, item: Item, rule: Rule)
    requires rule != UserUnknownDevice
    ensures Fires(rule, item.event, Stored(items), users, item.env) <==> Calls(rule, items, item)
  {
    var e, env := item.event, item.env;
    match rule
    case UnknownDevice => NewIffNotBefore(items, Host(e), Device(e));
    case HighVolumeTransfer => BytesWith(items, item, env.now - 3600);
    case RapidCycle => RecentCyclesAre(items, Host(e), env.now - env.rapidCycleWindow);
    case CrossAgentDevice => ElsewhereIffSeen(items, Host(e), Device(e), env.now - 3600);
    case _ =>
  }

  /** A rule fires on an event if and only if it and the events before it call for it. */
  lemma FiresIffCalled(H: Hasher, items: seq<Item>, window: int, item: Item, rule: Rule)
    ensures var s := Ingest.Run(H, items, window);
            Fires(rule, item.event, s.events, s.users, item.env) <==> Calls(rule, items, item)
  {
    EventsStored(H, items, window);
    if rule == UserUnknownDevice {
      var e, s := item.event, Ingest.Run(H, items, window);
      if User(e) != "" { UserIsNewIff(H, items, window, User(e), Host(e), Device(e)); }
      UserRuleIff(items, s.events, s.users, item);
    } else {
      OtherRulesIff(items, Ingest.Run(H, items, window).users, item, rule);
    }
  }

  /**
    Over every run, the alerts that an event raises, in order and with their severities, are those
    that it and the events before it call for.
   */
  lemma FiredIsByHistory(H: Hasher, items: seq<Item>, window: int, item: Item)
    ensures Fired(Ingest.Run(H, items, window), item) == Firings(items, item)
  {
    var s := Ingest.Run(H, items, window);
    forall rule ensures Fires(rule, item.event, s.events, s.users, item.env) <==> Calls(rule, items, item) {
      FiresIffCalled(H, items, window, item, rule);
    }
    EvaluateAll(item.event, s.events, s.users, item.env);
  }

  // ----- Risk, host by host -----

  /** What the alerts of one event are worth. */
  function Worth(fired: seq<Alert>): nat {
    40 * Occurs(fired, UnknownDevice) + 20 * Occurs(fired, AfterHoursDevice)
    + 50 * Occurs(fired, HighVolumeTransfer) + 30 * Occurs(fired, RapidCycle)
    + 100 * Occurs(fired, HoneypotDevice) + 10 * Occurs(fired, CrossAgentDevice)
    + 10 * Occurs(fired, KnownMaliciousDevice) + 10 * Occurs(fired, UserUnknownDevice)
  }

  lemma WorthNext(fired: seq<Alert>)
    requires fired != []
    ensures Worth(fired) == Worth(fired[..|fired| - 1]) + Weight(fired[|fired| - 1].rule)
  {
  }

  lemma {:induction false} DeltaIsWorth(fired: seq<Alert>)
    ensures Delta(fired) == Worth(fired)
  {
    if fired == [] {
    } else {
      DeltaIsWorth(fired[..|fired| - 1]);
      WorthNext(fired);
    }
  }

  /** The worth of all alerts that the host's events have raised, suppressed or not. */
  ghost function HostRisk(items: seq<Item>, host: string): nat {
    if items == [] then 0
    else
      var before, item := items[..|items| - 1], items[|items| - 1];
      HostRisk(before, host) + if Host(item.event) == host then Worth(Firings(before, item)) else 0
  }

  /** Over every run, each host's score is what its own events were worth. */
  lemma {:induction false} RiskIsByHost(H: Hasher, items: seq<Item>, window: int, host: string)
    ensures Score(Ingest.Run(H, items, window).risk, host) == HostRisk(items, host)
  {
    if items == [] {
    } else {
      var before, item := items[..|items| - 1], items[|items| - 1];
      RiskIsByHost(H, before, window, host);
      FiredIsByHistory(H, before, window, item);
      DeltaIsWorth(Firings(before, item));
      RiskNext(H, items, window, host);
    }
  }

  lemma RiskNext(H: Hasher, items: seq<Item>, window: int, host: string)
    requires items != []
    ensures var before, item := items[..|items| - 1], items[|items| - 1];
            var s := Ingest.Run(H, before, window);
            Score(Ingest.Run(H, items, window).risk, host)
            == Score(s.risk, host) + if Host(item.event) == host then Delta(Fired(s, item)) else 0
  {
    var before, item := items[..|items| - 1], items[|items| - 1];
    var s := Ingest.Run(H, before, window);
    IngestRisk(H, s, item, window);
    RiskAdded(s.risk, Host(item.event), Delta(Fired(s, item)), host);
  }

  // ----- Alerts, event by event -----

  /** An alert with these fields that is not older. */
  ghost predicate Recent(alerts: seq<AlertRow>, host: string, device: string, rule: Rule, since: int) {
    exists a :: a in alerts && a.key.hostname == host && a.key.deviceId == device && a.key.rule == rule
                && a.createdAt >= since
  }

  ghost predicate Raises(fired: seq<Alert>, rule: Rule) {
    exists a :: a in fired && a.rule == rule
  }

  ghost predicate RulesDiffer(fired: seq<Alert>) {
    forall i, j :: 0 <= i < j < |fired| ==> fired[i].rule != fired[j].rule
  }

  ghost predicate HasRule(alerts: seq<AlertRow>, rule: Rule) {
    exists a :: a in alerts && a.key.rule == rule
  }

  /** The alert is for this event, at this time, and for a rule that fired with this severity. */
  ghost predicate For(a: AlertRow, event: Json, fired: seq<Alert>, now: int) {
    && a.key.hostname == Host(event) && a.key.deviceId == Device(event) && a.createdAt == now
    && Alert(a.key.rule, a.severity) in fired
  }

  /** The alerts in `more` are for this event, and there is one of a rule exactly when it fired and no recent one was there. */
  ghost predicate Answers(before: seq<AlertRow>, more: seq<AlertRow>, event: Json, fired: seq<Alert>, now: int, window: int) {
    && (forall a :: a in more ==> For(a, event, fired, now))
    && (forall rule ::
          HasRule(more, rule) <==> Raises(fired, rule) && !Recent(before, Host(event), Device(event), rule, now - window))
  }

  lemma RaisesNext(fired: seq<Alert>, a: Alert, rule: Rule)
    ensures Raises(fired + [a], rule) <==> Raises(fired, rule) || a.rule == rule
  {
    assert forall b :: b in fired + [a] <==> b in fired || b == a;
  }

  lemma HasRuleNext(more: seq<AlertRow>, a: AlertRow, rule: Rule)
    ensures HasRule(more + [a], rule) <==> HasRule(more, rule) || a.key.rule == rule
  {
    assert forall b :: b in more + [a] <==> b in more || b == a;
  }

  lemma NotYet(fired: seq<Alert>, a: Alert)
    requires RulesDiffer(fired + [a])
    ensures !Raises(fired, a.rule) && RulesDiffer(fired)
  {
    var all := fired + [a];
    assert forall i :: 0 <= i < |fired| ==> all[i] == fired[i] && all[i].rule != all[|fired|].rule;
  }

  /** The next alert is held back exactly when an alert from before the event is recent. */
  lemma HeldBackIff(before: seq<AlertRow>, more: seq<AlertRow>, event: Json, fired: seq<Alert>, a: Alert, now: int, window: int)
    requires Answers(before, more, event, fired, now, window) && !Raises(fired, a.rule)
    ensures HasRecent(before + more, AlertKey(event, a), now - window)
            <==> Recent(before, Host(event), Device(event), a.rule, now - window)
  {
    assert !HasRule(more, a.rule);
    assert forall b :: b in before + more <==> b in before || b in more;
  }

  lemma AnswerNext(before: seq<AlertRow>, more: seq<AlertRow>, event: Json, fired: seq<Alert>, a: Alert, now: int, window: int)
    requires Answers(before, more, event, fired, now, window)
    ensures var row := AlertRow(now, Key(Host(event), Device(event), a.rule), a.severity);
            var held := Recent(before, Host(event), Device(event), a.rule, now - window);
            !Raises(fired, a.rule) ==> Answers(before, if held then more else more + [row], event, fired + [a], now, window)
  {
    var row := AlertRow(now, Key(Host(event), Device(event), a.rule), a.severity);
    forall rule
      ensures Raises(fired + [a], rule) <==> Raises(fired, rule) || a.rule == rule
      ensures HasRule(more + [row], rule) <==> HasRule(more, rule) || a.rule == rule
    {
      RaisesNext(fired, a, rule);
      HasRuleNext(more, row, rule);
    }
    assert forall b :: b in fired ==> b in fired + [a];
    assert a in fired + [a];
  }

  lemma OneAnswer(s: Server, before: seq<AlertRow>, more: seq<AlertRow>, event: Json, fired: seq<Alert>, a: Alert, now: int, window: int)
      returns (all: seq<AlertRow>)
    requires s.alerts == before + more && Answers(before, more, event, fired, now, window) && !Raises(fired, a.rule)
    ensures ProcessOne(s, event, a, now, window).alerts == before + all
    ensures Answers(before, all, event, fired + [a], now, window)
  {
    HeldBackIff(before, more, event, fired, a, now, window);
    AnswerNext(before, more, event, fired, a, now, window);
    var row := AlertRow(now, Key(Host(event), Device(event), a.rule), a.severity);
    all := if Recent(before, Host(event), Device(event), a.rule, now - window) then more else more + [row];
    assert before + (more + [row]) == before + more + [row];
  }

  lemma {:induction false} ProcessAnswers(s: Server, event: Json, fired: seq<Alert>, now: int, window: int) returns (more: seq<AlertRow>)
    requires RulesDiffer(fired)
    ensures ProcessAlerts(s, event, fired, now, window).alerts == s.alerts + more
    ensures Answers(s.alerts, more, event, fired, now, window)
  {
    if fired == [] {
      more := [];
    } else {
      var before, a := fired[..|fired| - 1], fired[|fired| - 1];
      assert fired == before + [a];
      NotYet(before, a);
      more := ProcessAnswers(s, event, before, now, window);
      more := OneAnswer(ProcessAlerts(s, event, before, now, window), s.alerts, more, event, before, a, now, window);
    }
  }

  lemma {:induction false} OccursIfRaised(fired: seq<Alert>, i: nat)
    requires i < |fired|
    ensures Occurs(fired, fired[i].rule) >= 1
  {
    if i == |fired| - 1 {
    } else {
      OccursIfRaised(fired[..|fired| - 1], i);
    }
  }

  lemma {:induction false} OnceDiffers(fired: seq<Alert>)
    requires forall rule :: Occurs(fired, rule) <= 1
    ensures RulesDiffer(fired)
  {
    if fired == [] {
    } else {
      var n := |fired| - 1;
      forall rule ensures Occurs(fired[..n], rule) <= 1 { assert Occurs(fired, rule) <= 1; }
      OnceDiffers(fired[..n]);
      forall i | 0 <= i < n ensures fired[i].rule != fired[n].rule {
        OccursIfRaised(fired[..n], i);
        assert Occurs(fired, fired[n].rule) <= 1;
      }
    }
  }

  lemma FiredDiffer(s: Server, item: Item)
    ensures RulesDiffer(Fired(s, item))
  {
    forall rule ensures Occurs(Fired(s, item), rule) <= 1 {
      OneAlertPerRule(RULE_COUNT, item.event, s.events, s.users, item.env, rule);
    }
    OnceDiffers(Fired(s, item));
  }

  /**
    Over every run, an event adds an alert of a rule exactly when the rule fires on it and no alert
    of that rule for its host and its device is stored from at most one window before; what it adds
    is for its host and its device, at its time, with the rule's severity.
   */
  lemma AlertsAnswerEvents(H: Hasher, items: seq<Item>, window: int, item: Item) returns (more: seq<AlertRow>)
    ensures Ingest.Run(H, items + [item], window).alerts == Ingest.Run(H, items, window).alerts + more
    ensures Answers(Ingest.Run(H, items, window).alerts, more, item.event, Firings(items, item), item.env.now, window)
  {
    var s, fired := Ingest.Run(H, items, window), Firings(items, item);
    FiredIsByHistory(H, items, window, item);
    FiredDiffer(s, item);
    var stored := Store(H, s.(ruleFires := CountFires(s.ruleFires, fired)), item);
    more := ProcessAnswers(stored, item.event, fired, item.env.now, window);
    assert (items + [item])[..|items|] == items;
  }

  lemma {:induction false} AlertsGrow(H: Hasher, items: seq<Item>, window: int, n: nat)
    requires n <= |items|
    ensures Ingest.Run(H, items[..n], window).alerts <= Ingest.Run(H, items, window).alerts
  {
    if n == |items| {
      assert items[..n] == items;
    } else {
      var before := items[..|items| - 1];
      AlertsGrow(H, before, window, n);
      assert before[..n] == items[..n] && items == before + [items[|items| - 1]];
      var more := AlertsAnswerEvents(H, before, window, items[|items| - 1]);
    }
  }

  lemma RecentStays(before: seq<AlertRow>, after: seq<AlertRow>, host: string, device: string, rule: Rule, since: int)
    requires before <= after && Recent(before, host, device, rule, since)
    ensures Recent(after, host, device, rule, since)
  {
    var a :| a in before && a.key.hostname == host && a.key.deviceId == device && a.key.rule == rule && a.createdAt >= since;
    assert a in after;
  }

  lemma AnswerIsRecent(before: seq<AlertRow>, more: seq<AlertRow>, event: Json, fired: seq<Alert>, now: int, window: int, rule: Rule)
    requires Answers(before, more, event, fired, now, window) && window >= 0 && Raises(fired, rule)
    ensures Recent(before + more, Host(event), Device(event), rule, now - window)
  {
    if Recent(before, Host(event), Device(event), rule, now - window) {
      RecentStays(before, before + more, Host(event), Device(event), rule, now - window);
    } else {
      assert HasRule(more, rule);
      var a :| a in more && a.key.rule == rule;
      assert a in before + more;
    }
  }

  lemma StillAnswered(H: Hasher, items: seq<Item>, window: int, n: nat, host: string, device: string, rule: Rule, since: int)
    requires n <= |items| && Recent(Ingest.Run(H, items[..n], window).alerts, host, device, rule, since)
    ensures Recent(Ingest.Run(H, items, window).alerts, host, device, rule, since)
  {
    var before, after := Ingest.Run(H, items[..n], window).alerts, Ingest.Run(H, items, window).alerts;
    AlertsGrow(H, items, window, n);
    RecentStays(before, after, host, device, rule, since);
  }

  lemma AnswersPrefix(H: Hasher, items: seq<Item>, window: int, j: nat) returns (more: seq<AlertRow>)
    requires j < |items|
    ensures Ingest.Run(H, items[..j + 1], window).alerts == Ingest.Run(H, items[..j], window).alerts + more
    ensures Answers(Ingest.Run(H, items[..j], window).alerts, more, items[j].event, Firings(items[..j], items[j]), items[j].env.now, window)
  {
    assert items[..j] + [items[j]] == items[..j + 1];
    more := AlertsAnswerEvents(H, items[..j], window, items[j]);
  }

  lemma AnsweredAtOnce(H: Hasher, items: seq<Item>, window: int, j: nat, rule: Rule)
    requires j < |items| && window >= 0 && Raises(Firings(items[..j], items[j]), rule)
    ensures Recent(Ingest.Run(H, items[..j + 1], window).alerts, Host(items[j].event), Device(items[j].event), rule, items[j].env.now - window)
  {
    var more := AnswersPrefix(H, items, window, j);
    AnswerIsRecent(Ingest.Run(H, items[..j], window).alerts, more, items[j].event, Firings(items[..j], items[j]), items[j].env.now, window, rule);
  }

  /**
    A rule that fires on an event leaves, from then on, an alert of that rule for its host and its
    device that is at most one window older than the event.
   */
  lemma FiringIsAnswered(H: Hasher, items: seq<Item>, window: int, j: nat, rule: Rule)
    requires j < |items| && window >= 0 && Raises(Firings(items[..j], items[j]), rule)
    ensures Recent(Ingest.Run(H, items, window).alerts, Host(items[j].event), Device(items[j].event), rule, items[j].env.now - window)
  {
    AnsweredAtOnce(H, items, window, j, rule);
    StillAnswered(H, items, window, j + 1, Host(items[j].event), Device(items[j].event), rule, items[j].env.now - window);
  }

  lemma OldOrNew(H: Hasher, items: seq<Item>, window: int, a: AlertRow)
    requires items != [] && a in Ingest.Run(H, items, window).alerts
    ensures var n := |items| - 1;
            || a in Ingest.Run(H, items[..n], window).alerts
            || For(a, items[n].event, Firings(items[..n], items[n]), items[n].env.now)
  {
    var before, item := items[..|items| - 1], items[|items| - 1];
    assert items == before + [item];
    var more := AlertsAnswerEvents(H, before, window, item);
  }

  /** The alert is for event `j`. */
  ghost predicate IsFor(a: AlertRow, items: seq<Item>, j: nat) {
    j < |items| && For(a, items[j].event, Firings(items[..j], items[j]), items[j].env.now)
  }

  lemma StillFor(a: AlertRow, items: seq<Item>, n: nat, j: nat)
    requires n <= |items| && IsFor(a, items[..n], j)
    ensures IsFor(a, items, j)
  {
    assert items[..n][..j] == items[..j];
  }

  /** Every persisted alert is for some event on which its rule fired. */
  lemma {:induction false} EveryAlertHasAnEvent(H: Hasher, items: seq<Item>, window: int, a: AlertRow) returns (j: nat)
    requires a in Ingest.Run(H, items, window).alerts
    ensures IsFor(a, items, j)
  {
    var n := |items| - 1;
    OldOrNew(H, items, window, a);
    if a in Ingest.Run(H, items[..n], window).alerts {
      j := EveryAlertHasAnEvent(H, items[..n], window, a);
      StillFor(a, items, n, j);
    } else {
      j := n;
    }
  }
}
