/**
 * main.py: the stateless server. Each `send_updates` fetches the
 * listing, builds one record per node in listing order, with the raw
 * cumulative `netin`/`netout` counters and the containers unsorted, and
 * sends `{'data': nodes_data}` — or, when building raised, `{'error': ...}`.
 */
module MainServer {
  import opened Wrappers
  import opened Proxmox

  /** A node as main.py reports it: `netin`/`netout` are byte counters, not rates. */
  datatype NodeRecord = NodeRecord(
    name: Option<string>,
    cpu: int,
    memoryUsed: int,
    memoryTotal: int,
    disk: int,
    netin: int,
    netout: int,
    containers: seq<ContainerRecord>)

  /** `list(map(lambda container: ..., containers))` (line 93): one record per listed container, in listing order. */
  function ContainerRecords(node: Option<string>, cs: seq<ContainerEntry>, up: Upstream): (r: seq<ContainerRecord>)
    ensures |r| == |cs|
    ensures forall i :: 0 <= i < |cs| ==> r[i] == ContainerRecordOf(node, cs[i], up)
  {
    if cs == [] then [] else [ContainerRecordOf(node, cs[0], up)] + ContainerRecords(node, cs[1..], up)
  }

  /** `get_node_data` (lines 77-94); `int(None / ...)` raises `TypeError` when `disk` is absent. */
  function NodeRecordOf(e: NodeEntry, up: Upstream): (r: Result<NodeRecord, Error>)
    ensures r.Failure? <==> e.disk.None?
    ensures r.Failure? ==> r.error == TypeError
    ensures r.Success? ==>
      var st := up.NodeStatus(e.node);
      && r.value.name == e.node
      && r.value.cpu == Get(st, "cpu", 0)
      && r.value.memoryUsed == MemoryMiB(st, "mem")
      && r.value.memoryTotal == MemoryMiB(st, "maxmem")
      && Success(r.value.disk) == DiskGiB(e)
      && r.value.netin == Get(st, "netin", 0)
      && r.value.netout == Get(st, "netout", 0)
      && r.value.containers == ContainerRecords(e.node, up.Containers(e.node), up)
  {
    var st := up.NodeStatus(e.node);
    match DiskGiB(e)
    case Failure(err) => Failure(err)
    case Success(disk) =>
      Success(NodeRecord(
        e.node,
        Get(st, "cpu", 0),
        MemoryMiB(st, "mem"),
        MemoryMiB(st, "maxmem"),
        disk,
        Get(st, "netin", 0),
        Get(st, "netout", 0),
        ContainerRecords(e.node, up.Containers(e.node), up)))
  }

  /** `list(map(self.get_node_data, nodes))` (line 31): left to right, stopping at the first exception. */
  function NodesData(nodes: seq<NodeEntry>, up: Upstream): (r: Result<seq<NodeRecord>, Error>)
    ensures r.Failure? ==> r.error == TypeError
    ensures r.Success? ==> |r.value| == |nodes|
    decreases |nodes|
  {
    if nodes == [] then Success([])
    else
      match NodeRecordOf(nodes[0], up)
      case Failure(err) => Failure(err)
      case Success(rec) =>
        match NodesData(nodes[1..], up)
        case Failure(err) => Failure(err)
        case Success(recs) => Success([rec] + recs)
  }

  predicate SomeDiskMissing(nodes: seq<NodeEntry>) {
    exists i :: 0 <= i < |nodes| && nodes[i].disk.None?
  }

  /**
   * Building the records raises exactly when some listed node lacks `disk`;
   * otherwise there is one record per node, in listing order.
   */
  lemma {:induction false} NodesDataFollowsListing(nodes: seq<NodeEntry>, up: Upstream)
    ensures NodesData(nodes, up).Failure? <==> SomeDiskMissing(nodes)
    ensures NodesData(nodes, up).Success? ==>
      var recs := NodesData(nodes, up).value;
      forall i :: 0 <= i < |nodes| ==> Success(recs[i]) == NodeRecordOf(nodes[i], up)
    decreases |nodes|
  {
    if nodes != [] {
      NodesDataFollowsListing(nodes[1..], up);
      if SomeDiskMissing(nodes[1..]) {
        var j :| 0 <= j < |nodes[1..]| && nodes[1..][j].disk.None?;
        assert nodes[j + 1].disk.None?;
      }
      if SomeDiskMissing(nodes) && nodes[0].disk.Some? {
        var j :| 0 <= j < |nodes| && nodes[j].disk.None?;
        assert nodes[1..][j - 1].disk.None?;
      }
      var r := NodesData(nodes, up);
      if r.Success? {
        var recs := NodesData(nodes[1..], up).value;
        assert r.value == [NodeRecordOf(nodes[0], up).value] + recs;
        forall i | 0 <= i < |nodes| ensures Success(r.value[i]) == NodeRecordOf(nodes[i], up) {
          if i > 0 {
            assert r.value[i] == recs[i - 1];
            assert nodes[1..][i - 1] == nodes[i];
          }
        }
      }
    }
  }

  /** What `send_updates` sends: `{'data': nodes_data}` or `{'error': str(e)}`. */
  datatype Message = Data(nodes: seq<NodeRecord>) | ErrorReport(error: Error)

  /** The message sent, if any, and whether the next call is scheduled. */
  datatype Tick = Tick(message: Option<Message>, rescheduled: bool)

  /**
   * `send_updates` (lines 28-44). `open` is `self.state == STATE_OPEN`. A
   * successful build is sent when open and always rescheduled; an exception
   * is reported when open and ends the updates.
   */
  function SendUpdates(up: Upstream, open: bool): (t: Tick)
    ensures t.message.Some? <==> open
    ensures t.rescheduled <==> NodesData(up.nodes, up).Success?
    ensures open && t.rescheduled ==> t.message == Some(Data(NodesData(up.nodes, up).value))
    ensures open && !t.rescheduled ==> t.message == Some(ErrorReport(TypeError))
  {
    NodesDataFollowsListing(up.nodes, up);
    match NodesData(up.nodes, up)
    case Success(nodesData) => Tick(if open then Some(Data(nodesData)) else None, true)
    case Failure(err) => Tick(if open then Some(ErrorReport(err)) else None, false)
  }

  /** On an open connection, the data message lists every node in listing order, with its raw counters. */
  lemma DataMessageFollowsListing(up: Upstream)
    requires forall i :: 0 <= i < |up.nodes| ==> up.nodes[i].disk.Some?
    ensures var t := SendUpdates(up, true);
      && t.rescheduled && t.message.Some? && t.message.value.Data?
      && |t.message.value.nodes| == |up.nodes|
      && forall i :: 0 <= i < |up.nodes| ==>
           var rec := t.message.value.nodes[i];
           var st := up.NodeStatus(up.nodes[i].node);
           && rec.name == up.nodes[i].node
           && rec.netin == Get(st, "netin", 0)
           && rec.netout == Get(st, "netout", 0)
  {
    NodesDataFollowsListing(up.nodes, up);
    var recs := NodesData(up.nodes, up).value;
    forall i | 0 <= i < |up.nodes|
      ensures recs[i].name == up.nodes[i].node
      ensures recs[i].netin == Get(up.NodeStatus(up.nodes[i].node), "netin", 0)
      ensures recs[i].netout == Get(up.NodeStatus(up.nodes[i].node), "netout", 0)
    {
      assert Success(recs[i]) == NodeRecordOf(up.nodes[i], up);
    }
  }
}
