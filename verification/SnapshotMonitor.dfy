/**
  The snapshot-diff monitors (`_poll_monitor_loop` in agent/monitor/usb_monitor.py; `BTMonitor._loop`
  in agent/monitor/bt_monitor.py is the same loop over Bluetooth addresses).
 */
module SnapshotMonitor {
  import opened Data
  import opened Tables

  /** A snapshot: a dictionary from device path to the event that describes the device. */
  type Snapshot = seq<Row<string, Json>>

  function Keys(s: Snapshot): set<string> {
    set r | r in s :: r.key
  }

  /** A call of the callback; `path` is what the event is about. */
  datatype Emitted = Emitted(path: string, connected: bool, event: Json)

  datatype Poll = Poll(snapshot: Snapshot, now: string)

  /** The device's last description, as a disconnect event. */
  function DisconnectEvent(event: Json, now: string): Json {
    match event
    case Obj(fields) => Obj(fields["event_type" := Str("disconnected")]["timestamp" := Str(now)])
    case _ => event
  }

  /** The connect events of a poll, in the order of the new snapshot. */
  function Appeared(previous: Snapshot, current: Snapshot): seq<Emitted> {
    if current == [] then []
    else
      var row := current[|current| - 1];
      Appeared(previous, current[..|current| - 1])
      + if row.key !in Keys(previous) then [Emitted(row.key, true, row.value)] else []
  }

  /** The disconnect events of a poll, in the order of the old snapshot. */
  function Vanished(previous: Snapshot, current: Snapshot, now: string): seq<Emitted> {
    if previous == [] then []
    else
      var row := previous[|previous| - 1];
      Vanished(previous[..|previous| - 1], current, now)
      + if row.key !in Keys(current) then [Emitted(row.key, false, DisconnectEvent(row.value, now))] else []
  }

  function Latest(initial: Snapshot, polls: seq<Poll>): Snapshot {
    if polls == [] then initial else polls[|polls| - 1].snapshot
  }

  function AllEmitted(initial: Snapshot, polls: seq<Poll>): seq<Emitted> {
    if polls == [] then []
    else
      var n := |polls| - 1;
      var previous, poll := Latest(initial, polls[..n]), polls[n];
      AllEmitted(initial, polls[..n])
      + (Appeared(previous, poll.snapshot) + Vanished(previous, poll.snapshot, poll.now))
  }

  method ReportAppeared(previous: Snapshot, current: Snapshot) returns (emitted: seq<Emitted>)
    ensures emitted == Appeared(previous, current)
  {
    emitted := [];
    for i := 0 to |current|
      invariant emitted == Appeared(previous, current[..i])
    {
      assert current[..i + 1][..i] == current[..i];
      if current[i].key !in Keys(previous) {
        emitted := emitted + [Emitted(current[i].key, true, current[i].value)];
      }
    }
    assert current[..|current|] == current;
  }

  method ReportVanished(previous: Snapshot, current: Snapshot, now: string) returns (emitted: seq<Emitted>)
    ensures emitted == Vanished(previous, current, now)
  {
    emitted := [];
    for i := 0 to |previous|
      invariant emitted == Vanished(previous[..i], current, now)
    {
      assert previous[..i + 1][..i] == previous[..i];
      if previous[i].key !in Keys(current) {
        emitted := emitted + [Emitted(previous[i].key, false, DisconnectEvent(previous[i].value, now))];
      }
    }
    assert previous[..|previous|] == previous;
  }

  /** The loop, until it is stopped: one new snapshot for each round. */
  method PollMonitorLoop(initial: Snapshot, polls: seq<Poll>) returns (emitted: seq<Emitted>)
    ensures emitted == AllEmitted(initial, polls)
  {
    emitted := [];
    var previous := initial;
    for n := 0 to |polls|
      invariant previous == Latest(initial, polls[..n])
      invariant emitted == AllEmitted(initial, polls[..n])
    {
      assert polls[..n + 1][..n] == polls[..n];
      var current := polls[n].snapshot;
      var appeared := ReportAppeared(previous, current);
      var vanished := ReportVanished(previous, current, polls[n].now);
      emitted := emitted + (appeared + vanished);
      previous := current;
    }
    assert polls[..|polls|] == polls;
  }

  // ----- What the events say -----

  /** What a listener that only sees the events believes to be plugged in. */
  function Replay(keys: set<string>, events: seq<Emitted>): set<string> {
    if events == [] then keys
    else
      var before, e := Replay(keys, events[..|events| - 1]), events[|events| - 1];
      if e.connected then before + {e.path} else before - {e.path}
  }

  /** The events about one path: true for connected, false for disconnected. */
  function Kinds(events: seq<Emitted>, path: string): seq<bool> {
    if events == [] then []
    else
      var e := events[|events| - 1];
      Kinds(events[..|events| - 1], path) + if e.path == path then [e.connected] else []
  }

  lemma {:induction false} KindsConcat(a: seq<Emitted>, b: seq<Emitted>, path: string)
    ensures Kinds(a + b, path) == Kinds(a, path) + Kinds(b, path)
  {
    if b == [] {
      assert a + b == a;
    } else {
      assert (a + b)[..|a + b| - 1] == a + b[..|b| - 1];
      KindsConcat(a, b[..|b| - 1], path);
    }
  }

  lemma {:induction false} ReplayIsLastKind(keys: set<string>, events: seq<Emitted>, path: string)
    ensures path in Replay(keys, events)
            <==> if Kinds(events, path) == [] then path in keys else Kinds(events, path)[|Kinds(events, path)| - 1]
  {
    if events == [] {
    } else {
      ReplayIsLastKind(keys, events[..|events| - 1], path);
    }
  }

  lemma {:induction false} AppearedKinds(previous: Snapshot, current: Snapshot, path: string)
    requires Unique(current)
    ensures Kinds(Appeared(previous, current), path)
            == if path in Keys(current) && path !in Keys(previous) then [true] else []
  {
    if current == [] {
    } else {
      var n := |current| - 1;
      AppearedKinds(previous, current[..n], path);
      KeysOfPrefix(current, path);
      var row := current[n];
      KindsConcat(Appeared(previous, current[..n]),
                  if row.key !in Keys(previous) then [Emitted(row.key, true, row.value)] else [], path);
      OneKind(Emitted(row.key, true, row.value), path);
    }
  }

  lemma {:induction false} VanishedKinds(previous: Snapshot, current: Snapshot, now: string, path: string)
    requires Unique(previous)
    ensures Kinds(Vanished(previous, current, now), path)
            == if path in Keys(previous) && path !in Keys(current) then [false] else []
  {
    if previous == [] {
    } else {
      var n := |previous| - 1;
      VanishedKinds(previous[..n], current, now, path);
      KeysOfPrefix(previous, path);
      var e := Emitted(previous[n].key, false, DisconnectEvent(previous[n].value, now));
      KindsConcat(Vanished(previous[..n], current, now), if e.path !in Keys(current) then [e] else [], path);
      OneKind(e, path);
    }
  }

  lemma OneKind(e: Emitted, path: string)
    ensures Kinds([e], path) == if e.path == path then [e.connected] else []
  {
    assert [e][..0] == [];
  }

  lemma KeysOfPrefix(s: Snapshot, path: string)
    requires s != [] && Unique(s)
    ensures path in Keys(s) <==> path in Keys(s[..|s| - 1]) || path == s[|s| - 1].key
    ensures s[|s| - 1].key !in Keys(s[..|s| - 1])
  {
    var n := |s| - 1;
    assert s == s[..n] + [s[n]] && s[n] in s;
    assert forall r :: r in s[..n] ==> r in s;
  }

  ghost predicate Dictionaries(initial: Snapshot, polls: seq<Poll>) {
    Unique(initial) && forall poll :: poll in polls ==> Unique(poll.snapshot)
  }

  ghost predicate Alternates(kinds: seq<bool>, first: bool) {
    && (kinds != [] ==> kinds[0] == first)
    && (forall i :: 0 < i < |kinds| ==> kinds[i] != kinds[i - 1])
  }

  /** The kinds so far, of a path that was there at first or not, end with whether it is there now. */
  ghost predicate Follows(kinds: seq<bool>, atFirst: bool, now: bool) {
    Alternates(kinds, !atFirst) && now == if kinds == [] then atFirst else kinds[|kinds| - 1]
  }

  lemma OneMore(kinds: seq<bool>, atFirst: bool, was: bool, now: bool)
    requires Follows(kinds, atFirst, was)
    ensures Follows(kinds + if was == now then [] else [now], atFirst, now)
  {
    if was == now { assert kinds + [] == kinds; }
  }

  /** The kinds of one poll for one path: one event when it came or went. */
  lemma PollKinds(previous: Snapshot, poll: Poll, path: string)
    requires Unique(previous) && Unique(poll.snapshot)
    ensures Kinds(Appeared(previous, poll.snapshot) + Vanished(previous, poll.snapshot, poll.now), path)
            == if (path in Keys(previous)) == (path in Keys(poll.snapshot)) then [] else [path in Keys(poll.snapshot)]
  {
    AppearedKinds(previous, poll.snapshot, path);
    VanishedKinds(previous, poll.snapshot, poll.now, path);
    KindsConcat(Appeared(previous, poll.snapshot), Vanished(previous, poll.snapshot, poll.now), path);
  }

  lemma LatestIsDictionary(initial: Snapshot, polls: seq<Poll>)
    requires Dictionaries(initial, polls)
    ensures Unique(Latest(initial, polls))
  {
    if polls != [] { assert polls[|polls| - 1] in polls; }
  }

  /**
    For each path the events alternate, from a disconnect exactly when it was there at the start,
    and the last one says whether it is there now.
   */
  lemma {:induction false} EventsAlternate(initial: Snapshot, polls: seq<Poll>, path: string)
    requires Dictionaries(initial, polls)
    ensures Follows(Kinds(AllEmitted(initial, polls), path), path in Keys(initial), path in Keys(Latest(initial, polls)))
  {
    if polls == [] {
    } else {
      var n := |polls| - 1;
      var previous, poll := Latest(initial, polls[..n]), polls[n];
      var more := Appeared(previous, poll.snapshot) + Vanished(previous, poll.snapshot, poll.now);
      EventsAlternate(initial, polls[..n], path);
      LatestIsDictionary(initial, polls[..n]);
      LatestIsDictionary(initial, polls);
      PollKinds(previous, poll, path);
      KindsConcat(AllEmitted(initial, polls[..n]), more, path);
      OneMore(Kinds(AllEmitted(initial, polls[..n]), path), path in Keys(initial),
              path in Keys(previous), path in Keys(poll.snapshot));
    }
  }

  /** After every poll, replaying the events from the first snapshot's devices gives the last snapshot's. */
  lemma ReplayReproducesSnapshots(initial: Snapshot, polls: seq<Poll>)
    requires Dictionaries(initial, polls)
    ensures Replay(Keys(initial), AllEmitted(initial, polls)) == Keys(Latest(initial, polls))
  {
    var replayed := Replay(Keys(initial), AllEmitted(initial, polls));
    forall path ensures path in replayed <==> path in Keys(Latest(initial, polls)) {
      ReplayIsLastKind(Keys(initial), AllEmitted(initial, polls), path);
      EventsAlternate(initial, polls, path);
    }
  }

  // ----- What an event is about -----

  /** The same description, but disconnected and at this time. */
  ghost predicate Disconnected(e: Json, was: Json, now: string) {
    if was.Obj? then
      && e.Obj? && "event_type" in e.fields && e.fields["event_type"] == Str("disconnected")
      && "timestamp" in e.fields && e.fields["timestamp"] == Str(now)
      && forall k :: k != "event_type" && k != "timestamp" ==>
           (k in e.fields <==> k in was.fields) && (k in e.fields ==> e.fields[k] == was.fields[k])
    else e == was
  }

  /** The event is what a poll between these snapshots has to say about its path. */
  ghost predicate Describes(e: Emitted, previous: Snapshot, poll: Poll) {
    if e.connected then Row(e.path, e.event) in poll.snapshot && e.path !in Keys(previous)
    else
      && e.path !in Keys(poll.snapshot)
      && exists row :: row in previous && row.key == e.path && Disconnected(e.event, row.value, poll.now)
  }

  lemma {:induction false} AppearedDescribe(previous: Snapshot, current: Snapshot, e: Emitted)
    requires e in Appeared(previous, current)
    ensures e.connected && Row(e.path, e.event) in current && e.path !in Keys(previous)
  {
    if e in Appeared(previous, current[..|current| - 1]) {
      AppearedDescribe(previous, current[..|current| - 1], e);
    }
  }

  lemma {:induction false} VanishedDescribe(previous: Snapshot, current: Snapshot, now: string, e: Emitted)
    requires e in Vanished(previous, current, now)
    ensures !e.connected && e.path !in Keys(current)
    ensures exists row :: row in previous && row.key == e.path && Disconnected(e.event, row.value, now)
  {
    var n := |previous| - 1;
    if e in Vanished(previous[..n], current, now) {
      VanishedDescribe(previous[..n], current, now, e);
      var row :| row in previous[..n] && row.key == e.path && Disconnected(e.event, row.value, now);
      assert row in previous;
    } else {
      assert previous[n] in previous && Disconnected(e.event, previous[n].value, now);
    }
  }

  /**
    Every event that is emitted is the new snapshot's description of a device that was not there,
    or the old one's of a device that is gone, marked as disconnected at the time of the poll.
   */
  lemma {:induction false} EventsDescribeDevices(initial: Snapshot, polls: seq<Poll>, e: Emitted) returns (n: nat)
    requires e in AllEmitted(initial, polls)
    ensures n < |polls| && Describes(e, Latest(initial, polls[..n]), polls[n])
  {
    n := |polls| - 1;
    if e in AllEmitted(initial, polls[..n]) {
      var m := EventsDescribeDevices(initial, polls[..n], e);
      assert polls[..n][..m] == polls[..m];
      n := m;
    } else {
      var previous, poll := Latest(initial, polls[..n]), polls[n];
      if e in Appeared(previous, poll.snapshot) {
        AppearedDescribe(previous, poll.snapshot, e);
      } else {
        VanishedDescribe(previous, poll.snapshot, poll.now, e);
      }
    }
  }

  /** One more poll adds what appeared, all of it before what vanished. */
  lemma ConnectsComeFirst(initial: Snapshot, polls: seq<Poll>, poll: Poll) returns (appeared: seq<Emitted>, vanished: seq<Emitted>)
    ensures AllEmitted(initial, polls + [poll]) == AllEmitted(initial, polls) + (appeared + vanished)
    ensures forall e :: e in appeared ==> e.connected
    ensures forall e :: e in vanished ==> !e.connected
  {
    var previous := Latest(initial, polls);
    assert (polls + [poll])[..|polls|] == polls && (polls + [poll])[|polls|] == poll;
    appeared, vanished := Appeared(previous, poll.snapshot), Vanished(previous, poll.snapshot, poll.now);
    forall e | e in appeared ensures e.connected { AppearedDescribe(previous, poll.snapshot, e); }
    forall e | e in vanished ensures !e.connected { VanishedDescribe(previous, poll.snapshot, poll.now, e); }
  }
}
