/**
 * The upstream cluster API as the backend sees it, shared by
 * backend/eupnea.py and main.py: the listings and status objects that the
 * HTTP GETs return, the unit conversions, and the container record that both
 * files build in the same way.
 *
 * Every GET is an input here. A GET that fails yields `{}` in the source;
 * here it is a path absent from the corresponding map, and reads as an
 * empty object or an empty listing.
 */
module Proxmox {
  import opened Wrappers

  /** The Python exceptions the core can raise. */
  datatype Error = TypeError | ZeroDivisionError

  /** A status object: numeric fields such as `cpu`, `mem`, `maxmem`, `netin`, `netout`. */
  type Numbers = map<string, int>

  /** One entry of the `/nodes` listing: the fields `node` and `disk`, each possibly absent. */
  datatype NodeEntry = NodeEntry(node: Option<string>, disk: Option<int>)

  /** One entry of a `/nodes/{node}/lxc` listing: the fields `vmid` and `status`. */
  datatype ContainerEntry = ContainerEntry(vmid: Option<int>, status: Option<string>)

  /** The answers of the upstream API to the GETs of one poll. */
  datatype Upstream = Upstream(
    nodes: seq<NodeEntry>,                                            // GET /nodes
    nodeStatus: map<Option<string>, Numbers>,                         // GET /nodes/{node}/status
    lxc: map<Option<string>, seq<ContainerEntry>>,                    // GET /nodes/{node}/lxc
    config: map<(Option<string>, Option<int>), map<string, string>>,  // GET /nodes/{node}/lxc/{vmid}/config
    current: map<(Option<string>, Option<int>), Numbers>)             // GET /nodes/{node}/lxc/{vmid}/status/current
  {
    function NodeStatus(node: Option<string>): Numbers {
      if node in nodeStatus then nodeStatus[node] else map[]
    }

    function Containers(node: Option<string>): seq<ContainerEntry> {
      if node in lxc then lxc[node] else []
    }

    function Config(node: Option<string>, vmid: Option<int>): map<string, string> {
      if (node, vmid) in config then config[(node, vmid)] else map[]
    }

    function ContainerStatus(node: Option<string>, vmid: Option<int>): Numbers {
      if (node, vmid) in current then current[(node, vmid)] else map[]
    }
  }

  /** Python's `m.get(key, default)`. */
  function Get(m: Numbers, key: string, default: int): int {
    if key in m then m[key] else default
  }

  const MiB: nat := 1024 * 1024
  const GiB: nat := 1024 * 1024 * 1024

  /** Python's `int(x / d)`: true division, then truncation toward zero. */
  function TruncDiv(x: int, d: nat): (r: int)
    requires d > 0
    ensures 0 <= x ==> 0 <= r && r * d <= x < r * d + d
    ensures x < 0 ==> r <= 0 && r * d - d < x <= r * d
  {
    if x >= 0 then x / d else -((-x) / d)
  }

  /** A container as the backend reports it. */
  datatype ContainerRecord = ContainerRecord(
    id: Option<int>,
    hostname: Option<string>,
    status: Option<string>,
    cpu: int,
    memoryUsed: int,
    memoryTotal: int,
    netin: int,
    netout: int)

  /** The memory used by a status object, in whole MiB; 0 when `mem` is absent. */
  function MemoryMiB(status: Numbers, key: string): (r: int)
    ensures key !in status ==> r == 0
    ensures key in status && status[key] >= 0 ==> r * MiB <= status[key] < (r + 1) * MiB
    ensures key in status && status[key] < 0 ==> (r - 1) * MiB < status[key] <= r * MiB
  {
    TruncDiv(Get(status, key, 0), MiB)
  }

  /**
   * `get_container_data`: the listing's `vmid` and `status`, the configured
   * `hostname`, and the live status numbers, each defaulting to 0.
   */
  function ContainerRecordOf(node: Option<string>, c: ContainerEntry, up: Upstream): (r: ContainerRecord)
    ensures r.id == c.vmid && r.status == c.status
    ensures var cfg := up.Config(node, c.vmid);
      r.hostname == (if "hostname" in cfg then Some(cfg["hostname"]) else None)
    ensures var st := up.ContainerStatus(node, c.vmid);
      && r.cpu == (if "cpu" in st then st["cpu"] else 0)
      && r.netin == (if "netin" in st then st["netin"] else 0)
      && r.netout == (if "netout" in st then st["netout"] else 0)
      && r.memoryUsed == MemoryMiB(st, "mem")
      && r.memoryTotal == MemoryMiB(st, "maxmem")
  {
    var cfg := up.Config(node, c.vmid);
    var st := up.ContainerStatus(node, c.vmid);
    ContainerRecord(
      c.vmid,
      if "hostname" in cfg then Some(cfg["hostname"]) else None,
      c.status,
      Get(st, "cpu", 0),
      MemoryMiB(st, "mem"),
      MemoryMiB(st, "maxmem"),
      Get(st, "netin", 0),
      Get(st, "netout", 0))
  }

  /** The node's disk in whole GiB; `int(None / ...)` raises `TypeError` when `disk` is absent. */
  function DiskGiB(e: NodeEntry): (r: Result<int, Error>)
    ensures e.disk.None? <==> r == Failure(TypeError)
    ensures e.disk.Some? ==> r == Success(TruncDiv(e.disk.value, GiB))
    ensures e.disk.Some? && e.disk.value >= 0 ==>
      r.Success? && r.value * GiB <= e.disk.value < (r.value + 1) * GiB
  {
    if e.disk.None? then Failure(TypeError) else Success(TruncDiv(e.disk.value, GiB))
  }
}
