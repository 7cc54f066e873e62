/** The attack graph of one host and the pattern looked for in it (server/detection/attack_graph.py). */
module AttackGraph {
  import opened Data
  import opened Tables
  import opened TextOrder
  import opened Timeline

  datatype NodeType = MachineNode | DeviceNode | ActionNode

  datatype Node = Node(id: string, nodeType: NodeType, caption: string)

  /** `from` and `to` are node ids. */
  datatype Edge = Edge(source: string, target: string, relation: string)

  /** `nodes` is a dictionary by node id, in insertion order. */
  datatype Graph = Graph(nodes: seq<Row<string, Node>>, edges: seq<Edge>)

  function MachineId(hostname: string): string { "machine:" + hostname }
  function DeviceNodeId(device: string): string { "device:" + device }
  function ActionId(device: string, eventType: string): string { "action:" + device + ":" + eventType }

  /** `if id not in nodes: nodes[id] = …`. */
  function AddNode(nodes: seq<Row<string, Node>>, n: Node): seq<Row<string, Node>> {
    if Lookup(nodes, n.id).Some? then nodes else Put(nodes, n.id, n)
  }

  function AddEdge(edges: seq<Edge>, e: Edge): seq<Edge> {
    if e in edges then edges else edges + [e]
  }

  function AddDevice(g: Graph, hostname: string, device: string): Graph {
    Graph(AddNode(g.nodes, Node(DeviceNodeId(device), DeviceNode, device)),
          AddEdge(g.edges, Edge(MachineId(hostname), DeviceNodeId(device), "connected")))
  }

  function AddAction(g: Graph, device: string, eventType: string): Graph {
    Graph(AddNode(g.nodes, Node(ActionId(device, eventType), ActionNode, eventType)),
          AddEdge(g.edges, Edge(DeviceNodeId(device), ActionId(device, eventType), eventType)))
  }

  function AddItem(g: Graph, hostname: string, x: Item): Graph {
    if x.kind.EventKind? && x.deviceId != "" then
      var h := AddDevice(g, hostname, x.deviceId);
      if x.eventType != "" then AddAction(h, x.deviceId, x.eventType) else h
    else g
  }

  function Build(hostname: string, timeline: seq<Item>): Graph {
    if timeline == [] then Graph([Row(MachineId(hostname), Node(MachineId(hostname), MachineNode, hostname))], [])
    else AddItem(Build(hostname, timeline[..|timeline| - 1]), hostname, timeline[|timeline| - 1])
  }

  method BuildAttackGraph(hostname: string, timeline: seq<Item>) returns (g: Graph)
    ensures g == Build(hostname, timeline)
  {
    var machineId := MachineId(hostname);
    var nodes := [Row(machineId, Node(machineId, MachineNode, hostname))];
    var edges: seq<Edge> := [];
    for i := 0 to |timeline|
      invariant Graph(nodes, edges) == Build(hostname, timeline[..i])
    {
      assert timeline[..i + 1][..i] == timeline[..i];
      var item := timeline[i];
      if item.kind.EventKind? && item.deviceId != "" {
        var deviceNodeId := DeviceNodeId(item.deviceId);
        nodes := AddNode(nodes, Node(deviceNodeId, DeviceNode, item.deviceId));
        edges := AddEdge(edges, Edge(machineId, deviceNodeId, "connected"));
        if item.eventType != "" {
          var actionId := ActionId(item.deviceId, item.eventType);
          nodes := AddNode(nodes, Node(actionId, ActionNode, item.eventType));
          edges := AddEdge(edges, Edge(deviceNodeId, actionId, item.eventType));
        }
      }
    }
    assert timeline[..|timeline|] == timeline;
    g := Graph(nodes, edges);
  }

  // ----- The graph is well formed -----

  ghost predicate HasNode(nodes: seq<Row<string, Node>>, id: string) {
    Lookup(nodes, id).Some?
  }

  ghost predicate WellFormed(g: Graph) {
    && Unique(g.nodes)
    && (forall i :: 0 <= i < |g.nodes| ==> g.nodes[i].key == g.nodes[i].value.id)
    && (forall i, j :: 0 <= i < j < |g.edges| ==> g.edges[i] != g.edges[j])
    && (forall e :: e in g.edges ==> HasNode(g.nodes, e.source) && HasNode(g.nodes, e.target))
  }

  lemma AddNodeKeeps(nodes: seq<Row<string, Node>>, n: Node, id: string)
    ensures HasNode(AddNode(nodes, n), id) <==> HasNode(nodes, id) || id == n.id
    ensures Unique(nodes) ==> Unique(AddNode(nodes, n))
  {
    PutLookup(nodes, n.id, n, id);
  }

  lemma AddBoth(g: Graph, n: Node, e: Edge)
    requires WellFormed(g)
    requires HasNode(AddNode(g.nodes, n), e.source) && HasNode(AddNode(g.nodes, n), e.target)
    ensures WellFormed(Graph(AddNode(g.nodes, n), AddEdge(g.edges, e)))
  {
    var h := Graph(AddNode(g.nodes, n), AddEdge(g.edges, e));
    AddNodeKeeps(g.nodes, n, n.id);
    forall f | f in h.edges ensures HasNode(h.nodes, f.source) && HasNode(h.nodes, f.target) {
      AddNodeKeeps(g.nodes, n, f.source);
      AddNodeKeeps(g.nodes, n, f.target);
    }
  }

  lemma ItemKeeps(g: Graph, hostname: string, x: Item)
    requires WellFormed(g) && HasNode(g.nodes, MachineId(hostname))
    ensures var h := AddItem(g, hostname, x);
            WellFormed(h) && HasNode(h.nodes, MachineId(hostname))
  {
    if x.kind.EventKind? && x.deviceId != "" {
      var n := Node(DeviceNodeId(x.deviceId), DeviceNode, x.deviceId);
      AddNodeKeeps(g.nodes, n, MachineId(hostname));
      AddNodeKeeps(g.nodes, n, n.id);
      AddBoth(g, n, Edge(MachineId(hostname), DeviceNodeId(x.deviceId), "connected"));
      if x.eventType != "" {
        var h := AddDevice(g, hostname, x.deviceId);
        var a := Node(ActionId(x.deviceId, x.eventType), ActionNode, x.eventType);
        AddNodeKeeps(h.nodes, a, MachineId(hostname));
        AddNodeKeeps(h.nodes, a, n.id);
        AddNodeKeeps(h.nodes, a, a.id);
        AddBoth(h, a, Edge(DeviceNodeId(x.deviceId), ActionId(x.deviceId, x.eventType), x.eventType));
      }
    }
  }

  /** Node ids are unique, no edge occurs twice, and every edge joins nodes that are there. */
  lemma {:induction false} GraphWellFormed(hostname: string, timeline: seq<Item>)
    ensures WellFormed(Build(hostname, timeline))
    ensures HasNode(Build(hostname, timeline).nodes, MachineId(hostname))
  {
    if timeline == [] {
    } else {
      GraphWellFormed(hostname, timeline[..|timeline| - 1]);
      ItemKeeps(Build(hostname, timeline[..|timeline| - 1]), hostname, timeline[|timeline| - 1]);
    }
  }

  // ----- The graph says what the timeline says -----

  /** The edges that an item calls for: from the machine to its device, and from the device to what it did. */
  ghost predicate EdgeOf(e: Edge, hostname: string, x: Item) {
    && x.kind.EventKind? && x.deviceId != ""
    && (|| e == Edge("machine:" + hostname, "device:" + x.deviceId, "connected")
        || (x.eventType != ""
            && e == Edge("device:" + x.deviceId, "action:" + x.deviceId + ":" + x.eventType, x.eventType)))
  }

  /** The nodes that an item calls for. */
  ghost predicate NodeOf(n: Node, x: Item) {
    && x.kind.EventKind? && x.deviceId != ""
    && (|| n == Node("device:" + x.deviceId, DeviceNode, x.deviceId)
        || (x.eventType != "" && n == Node("action:" + x.deviceId + ":" + x.eventType, ActionNode, x.eventType)))
  }

  lemma ItemEdges(g: Graph, hostname: string, x: Item, e: Edge)
    ensures e in AddItem(g, hostname, x).edges <==> e in g.edges || EdgeOf(e, hostname, x)
  {
  }

  /** An edge is in the graph if and only if some item of the timeline calls for it. */
  lemma {:induction false} EdgesAreTimeline(hostname: string, timeline: seq<Item>, e: Edge)
    ensures e in Build(hostname, timeline).edges <==> exists x :: x in timeline && EdgeOf(e, hostname, x)
  {
    if timeline == [] {
    } else {
      var before, x := timeline[..|timeline| - 1], timeline[|timeline| - 1];
      EdgesAreTimeline(hostname, before, e);
      ItemEdges(Build(hostname, before), hostname, x, e);
      assert timeline == before + [x];
      assert forall y :: y in timeline <==> y in before || y == x;
    }
  }

  lemma AddNodeLookup(nodes: seq<Row<string, Node>>, n: Node, id: string)
    ensures Lookup(AddNode(nodes, n), id)
            == if id == n.id && Lookup(nodes, id).None? then Some(n) else Lookup(nodes, id)
  {
    PutLookup(nodes, n.id, n, id);
  }

  lemma ItemNodes(g: Graph, hostname: string, x: Item, id: string)
    ensures var was, now := Lookup(g.nodes, id), Lookup(AddItem(g, hostname, x).nodes, id);
            && (was.Some? ==> now == was)
            && (was.None? && now.Some? ==> NodeOf(now.value, x) && now.value.id == id)
            && forall n :: NodeOf(n, x) && n.id == id ==> now.Some?
  {
    if x.kind.EventKind? && x.deviceId != "" {
      var d := Node(DeviceNodeId(x.deviceId), DeviceNode, x.deviceId);
      AddNodeLookup(g.nodes, d, id);
      if x.eventType != "" {
        AddNodeLookup(AddNode(g.nodes, d), Node(ActionId(x.deviceId, x.eventType), ActionNode, x.eventType), id);
      }
    }
  }

  /**
    There is a node for the machine and for everything some item of the timeline calls for, and
    each node is one that was called for.
   */
  lemma {:induction false} NodesAreTimeline(hostname: string, timeline: seq<Item>, id: string)
    ensures var machine := Node("machine:" + hostname, MachineNode, hostname);
            var found := Lookup(Build(hostname, timeline).nodes, id);
            && (found.Some? ==>
                  found.value.id == id && (found.value == machine || exists x :: x in timeline && NodeOf(found.value, x)))
            && (id == machine.id ==> found == Some(machine))
            && forall x, n :: x in timeline && NodeOf(n, x) && n.id == id ==> found.Some?
  {
    if timeline == [] {
      var first := Row(MachineId(hostname), Node(MachineId(hostname), MachineNode, hostname));
      assert [first][1..] == [];
    } else {
      var before, x := timeline[..|timeline| - 1], timeline[|timeline| - 1];
      NodesAreTimeline(hostname, before, id);
      ItemNodes(Build(hostname, before), hostname, x, id);
      assert timeline == before + [x];
      assert forall y :: y in timeline <==> y in before || y == x;
    }
  }

  // ----- Detection -----

  const DEVICE_PREFIX: string := "device:"

  predicate IsDeviceId(id: string) {
    DEVICE_PREFIX <= id
  }

  /** A device id, with colons in it or not, comes back out of its node id. */
  lemma DeviceIdRoundTrip(device: string)
    ensures IsDeviceId(DeviceNodeId(device)) && AfterColon(DeviceNodeId(device)) == device
  {
    assert DeviceNodeId(device) == "device" + ":" + device;
    FirstColon("device", device);
  }

  lemma MachineIsNoDevice(hostname: string)
    ensures !IsDeviceId(MachineId(hostname))
  {
    assert MachineId(hostname)[0] == 'm' && DEVICE_PREFIX[0] == 'd';
  }

  function Relations(actions: seq<Row<string, set<string>>>, id: string): set<string> {
    match Lookup(actions, id)
    case Some(relations) => relations
    case None => {}
  }

  /** `actions_by_device`: the relations on the edges out of each device node. */
  function ActionsByDevice(edges: seq<Edge>): seq<Row<string, set<string>>> {
    if edges == [] then []
    else
      var before, e := ActionsByDevice(edges[..|edges| - 1]), edges[|edges| - 1];
      if IsDeviceId(e.source) then Put(before, e.source, Relations(before, e.source) + {e.relation}) else before
  }

  predicate Cycles(relations: set<string>) {
    "connected" in relations && "disconnected" in relations
  }

  /** The ids of the devices that were both connected and disconnected, as the dictionary has them. */
  function CycledIds(actions: seq<Row<string, set<string>>>): seq<string> {
    if actions == [] then []
    else
      var row := actions[|actions| - 1];
      CycledIds(actions[..|actions| - 1]) + if Cycles(row.value) then [AfterColon(row.key)] else []
  }

  function InsertText(x: string, ys: seq<string>): seq<string> {
    if ys == [] || Leq(x, ys[0]) then [x] + ys else [ys[0]] + InsertText(x, ys[1..])
  }

  /** `sorted(…)` on strings. */
  function SortText(xs: seq<string>): seq<string> {
    if xs == [] then [] else InsertText(xs[0], SortText(xs[1..]))
  }

  /** The devices of the finding, which is made if there are any. */
  method DetectExfilPattern(edges: seq<Edge>) returns (finding: Option<seq<string>>)
    ensures finding == Detect(edges)
  {
    var actionsByDevice: seq<Row<string, set<string>>> := [];
    for i := 0 to |edges|
      invariant actionsByDevice == ActionsByDevice(edges[..i])
    {
      assert edges[..i + 1][..i] == edges[..i];
      var source := edges[i].source;
      if IsDeviceId(source) {
        actionsByDevice := Put(actionsByDevice, source, Relations(actionsByDevice, source) + {edges[i].relation});
      }
    }
    assert edges[..|edges|] == edges;
    var cycled := SortText(CycledIds(actionsByDevice));
    finding := if cycled != [] then Some(cycled) else None;
  }

  function Detect(edges: seq<Edge>): Option<seq<string>> {
    var cycled := SortText(CycledIds(ActionsByDevice(edges)));
    if cycled != [] then Some(cycled) else None
  }

  ghost predicate StrictlySorted(xs: seq<string>) {
    forall i :: 0 < i < |xs| ==> Less(xs[i - 1], xs[i])
  }

  lemma {:induction false} InsertTextSorted(x: string, ys: seq<string>)
    requires StrictlySorted(ys) && x !in ys
    ensures StrictlySorted(InsertText(x, ys))
    ensures forall d :: d in InsertText(x, ys) <==> d == x || d in ys
    ensures ys != [] && Less(ys[0], x) ==> Less(ys[0], InsertText(x, ys)[0]) || InsertText(x, ys)[0] == ys[0]
  {
    if ys == [] {
    } else {
      Total(x, ys[0]);
      assert ys[0] in ys;
      if Leq(x, ys[0]) {
        assert forall i :: 0 < i < |[x] + ys| ==> ([x] + ys)[i] == ys[i - 1];
      } else {
        assert StrictlySorted(ys[1..]);
        InsertTextSorted(x, ys[1..]);
        if |ys| > 1 {
          assert Less(ys[0], ys[1]);
          Total(x, ys[1]);
        }
        assert ys == [ys[0]] + ys[1..];
      }
    }
  }

  ghost predicate NoneTwice(xs: seq<string>) {
    forall i, j :: 0 <= i < j < |xs| ==> xs[i] != xs[j]
  }

  lemma {:induction false} SortTextSorted(xs: seq<string>)
    requires NoneTwice(xs)
    ensures StrictlySorted(SortText(xs))
    ensures forall d :: d in SortText(xs) <==> d in xs
  {
    if xs == [] {
    } else {
      SortTextSorted(xs[1..]);
      InsertTextSorted(xs[0], SortText(xs[1..]));
      assert xs == [xs[0]] + xs[1..];
    }
  }

  /** Are all keys ids of device nodes? */
  ghost predicate DeviceKeys(actions: seq<Row<string, set<string>>>) {
    forall i :: 0 <= i < |actions| ==> IsDeviceId(actions[i].key)
  }

  lemma DeviceIdOf(id: string)
    requires IsDeviceId(id)
    ensures id == DeviceNodeId(AfterColon(id))
  {
    var device := id[|DEVICE_PREFIX|..];
    assert id == DEVICE_PREFIX + device;
    DeviceIdRoundTrip(device);
  }

  lemma {:induction false} ActionsCollected(edges: seq<Edge>, id: string, relation: string)
    requires IsDeviceId(id)
    ensures var actions := ActionsByDevice(edges);
            && Unique(actions) && DeviceKeys(actions)
            && (relation in Relations(actions, id) <==> exists e :: e in edges && e.source == id && e.relation == relation)
  {
    if edges == [] {
    } else {
      var n := |edges| - 1;
      var before, e := ActionsByDevice(edges[..n]), edges[n];
      ActionsCollected(edges[..n], id, relation);
      assert edges == edges[..n] + [e];
      if IsDeviceId(e.source) {
        PutLookup(before, e.source, Relations(before, e.source) + {e.relation}, id);
      }
    }
  }

  lemma {:induction false} CycledCollected(actions: seq<Row<string, set<string>>>, device: string)
    requires Unique(actions) && DeviceKeys(actions)
    ensures NoneTwice(CycledIds(actions))
    ensures device in CycledIds(actions) <==> Cycles(Relations(actions, DeviceNodeId(device)))
    ensures forall d :: d in CycledIds(actions) ==> exists i :: 0 <= i < |actions| && actions[i].key == DeviceNodeId(d)
  {
    if actions == [] {
    } else {
      var n := |actions| - 1;
      var before, row := actions[..n], actions[n];
      CycledCollected(before, device);
      CycledCollected(before, AfterColon(row.key));
      DeviceIdOf(row.key);
      DeviceIdRoundTrip(device);
      LookupLast(actions, DeviceNodeId(device));
      assert forall i :: 0 <= i < n ==> before[i].key != DeviceNodeId(AfterColon(row.key));
      assert AfterColon(row.key) !in CycledIds(before);
      forall d | d in CycledIds(actions) ensures exists i :: 0 <= i < |actions| && actions[i].key == DeviceNodeId(d) {
        if d in CycledIds(before) {
          var i :| 0 <= i < |before| && before[i].key == DeviceNodeId(d);
          assert actions[i].key == DeviceNodeId(d);
        } else {
          assert actions[n].key == DeviceNodeId(d);
        }
      }
    }
  }

  lemma LookupLast<V>(rows: seq<Row<string, V>>, key: string)
    requires rows != [] && Unique(rows)
    ensures Lookup(rows, key)
            == if rows[|rows| - 1].key == key then Some(rows[|rows| - 1].value) else Lookup(rows[..|rows| - 1], key)
  {
    var i, j := Find(rows, key), Find(rows[..|rows| - 1], key);
    if j < |rows| - 1 { assert rows[j].key == key; }
    if i < |rows| - 1 { assert rows[..|rows| - 1][i].key == key; }
  }

  /** Does the timeline have an event of this type on this device? */
  ghost predicate HasEvent(timeline: seq<Item>, device: string, eventType: string) {
    exists x :: x in timeline && x.kind.EventKind? && x.deviceId == device && x.eventType == eventType
  }

  lemma EdgesOfDevice(hostname: string, timeline: seq<Item>, device: string, eventType: string)
    requires device != "" && eventType != ""
    ensures (exists e :: e in Build(hostname, timeline).edges && e.source == DeviceNodeId(device) && e.relation == eventType)
            <==> HasEvent(timeline, device, eventType)
  {
    MachineIsNoDevice(hostname);
    DeviceIdRoundTrip(device);
    if e :| e in Build(hostname, timeline).edges && e.source == DeviceNodeId(device) && e.relation == eventType {
      EdgesAreTimeline(hostname, timeline, e);
      var x :| x in timeline && EdgeOf(e, hostname, x);
      DeviceIdRoundTrip(x.deviceId);
      assert x.deviceId == device && x.eventType == eventType;
    }
    if HasEvent(timeline, device, eventType) {
      var x :| x in timeline && x.kind.EventKind? && x.deviceId == device && x.eventType == eventType;
      var e := Edge(DeviceNodeId(device), ActionId(device, eventType), eventType);
      EdgesAreTimeline(hostname, timeline, e);
      assert EdgeOf(e, hostname, x);
    }
  }

  /**
    The pattern found in the graph of a timeline is precisely the sorted list, without repetition,
    of the devices that have both a connected and a disconnected event in it, colons in their ids
    or not.
   */
  lemma DetectsCyclingDevices(hostname: string, timeline: seq<Item>, device: string)
    ensures var finding := Detect(Build(hostname, timeline).edges);
            && (finding.Some? ==> StrictlySorted(finding.value) && finding.value != [])
            && (finding.Some? && device in finding.value
                <==> device != "" && HasEvent(timeline, device, "connected") && HasEvent(timeline, device, "disconnected"))
  {
    var edges := Build(hostname, timeline).edges;
    var actions := ActionsByDevice(edges);
    DeviceIdRoundTrip(device);
    ActionsCollected(edges, DeviceNodeId(device), "connected");
    ActionsCollected(edges, DeviceNodeId(device), "disconnected");
    CycledCollected(actions, device);
    SortTextSorted(CycledIds(actions));
    if device != "" {
      EdgesOfDevice(hostname, timeline, device, "connected");
      EdgesOfDevice(hostname, timeline, device, "disconnected");
    } else {
      NoEmptyDevice(hostname, timeline);
    }
  }

  lemma {:induction false} NoEmptyDevice(hostname: string, timeline: seq<Item>)
    ensures forall e :: e in Build(hostname, timeline).edges ==> e.source != DeviceNodeId("")
  {
    if timeline == [] {
    } else {
      var x := timeline[|timeline| - 1];
      NoEmptyDevice(hostname, timeline[..|timeline| - 1]);
      MachineIsNoDevice(hostname);
      DeviceIdRoundTrip("");
      DeviceIdRoundTrip(x.deviceId);
    }
  }
}
