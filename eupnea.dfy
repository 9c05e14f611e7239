/**
 * backend/eupnea.py, pure part: the node record, the bits-per-second rate
 * against the oldest retained sample, and what one call of `get_node_data`
 * and one `update_cache` poll do to the per-node sample windows, stated as
 * functions on values. The objects that hold those windows are in
 * EupneaBackend.
 */
module Eupnea {
  import opened Wrappers
  import opened Sorting
  import opened CircularBuffers
  import opened Proxmox

  /** Number of samples the rate is computed over. */
  const RATES_WINDOW: nat := 30

  /** A node as the backend reports it; `netin`/`netout` are rates in bits per second. */
  datatype NodeRecord = NodeRecord(
    name: Option<string>,
    cpu: int,
    memoryUsed: int,
    memoryTotal: int,
    disk: int,
    netin: real,
    netout: real,
    containers: seq<ContainerRecord>)

  /** The samples retained for one node: byte counters and the wall-clock time of each sample. */
  datatype Window = Window(netin: seq<int>, netout: seq<int>, timestamp: seq<real>)

  const EmptyWindow := Window([], [], [])

  /** The three buffers of a node advance together and stay within the window size. */
  predicate WindowValid(w: Window) {
    |w.netin| == |w.netout| == |w.timestamp| <= RATES_WINDOW
  }

  predicate AllValid(windows: map<Option<string>, Window>) {
    forall k :: k in windows ==> WindowValid(windows[k])
  }

  /** `calculate_rate`: bytes between two counter readings, as bits per second; signed, no clamping. */
  function CalculateRate(current: int, prev: int, elapsed: real): (r: real)
    requires elapsed != 0.0
    ensures r * elapsed == (current - prev) as real * 8.0
    ensures elapsed > 0.0 ==> (r < 0.0 <==> current < prev)
  {
    (current - prev) as real * 8.0 / elapsed
  }

  datatype Rates = Rates(netin: real, netout: real)

  /**
   * Lines 92-105: 0 when a buffer is still empty; otherwise the rate since the
   * OLDEST retained sample, and a `ZeroDivisionError` when that sample was
   * taken at the current clock reading.
   */
  function NodeRates(w: Window, curIn: int, curOut: int, now: real): (r: Result<Rates, Error>)
    ensures w.netin == [] || w.netout == [] || w.timestamp == [] ==> r == Success(Rates(0.0, 0.0))
    ensures w.netin != [] && w.netout != [] && w.timestamp != [] ==>
      && (r.Failure? <==> now == w.timestamp[0])
      && (r.Success? ==>
            && r.value.netin == CalculateRate(curIn, w.netin[0], now - w.timestamp[0])
            && r.value.netout == CalculateRate(curOut, w.netout[0], now - w.timestamp[0]))
    ensures r.Failure? ==> r.error == ZeroDivisionError
  {
    match (Oldest(w.netin), Oldest(w.netout), Oldest(w.timestamp))
    case (Some(prevIn), Some(prevOut), Some(prevTime)) =>
      var elapsed := now - prevTime;
      if elapsed == 0.0 then Failure(ZeroDivisionError)
      else Success(Rates(CalculateRate(curIn, prevIn, elapsed), CalculateRate(curOut, prevOut, elapsed)))
    case _ => Success(Rates(0.0, 0.0))
  }

  /**
   * Lines 107-109: one sample appended to each of the three buffers. The
   * three stay in step, grow by one until the window is full, and each ends
   * with the new sample.
   */
  function Observed(w: Window, curIn: int, curOut: int, now: real): (r: Window)
    ensures WindowValid(w) ==> WindowValid(r)
    ensures WindowValid(w) ==>
      |r.timestamp| == if |w.timestamp| < RATES_WINDOW then |w.timestamp| + 1 else RATES_WINDOW
    ensures Newest(r.netin) == Some(curIn) && Newest(r.netout) == Some(curOut) && Newest(r.timestamp) == Some(now)
  {
    Window(
      PushBounded(w.netin, curIn, RATES_WINDOW),
      PushBounded(w.netout, curOut, RATES_WINDOW),
      PushBounded(w.timestamp, now, RATES_WINDOW))
  }

  /** The three `get_oldest` checks of line 97-101 agree on a valid window. */
  lemma OldestChecksAgree(w: Window)
    requires WindowValid(w)
    ensures Oldest(w.netin).Some? == Oldest(w.netout).Some? == Oldest(w.timestamp).Some?
  {
  }

  /** Containers are ordered by `vmid`, a missing one counting as 0 (line 80). */
  predicate ContainerOrder(a: ContainerEntry, b: ContainerEntry) {
    a.vmid.GetOr(0) <= b.vmid.GetOr(0)
  }

  /** Nodes are ordered by name, a missing one counting as "" (line 128). */
  predicate NodeOrder(a: NodeEntry, b: NodeEntry) {
    LexLe(a.node.GetOr(""), b.node.GetOr(""))
  }

  lemma ContainerOrderIsTotalPreorder()
    ensures TotalPreorder(ContainerOrder)
  {
  }

  lemma NodeOrderIsTotalPreorder()
    ensures TotalPreorder(NodeOrder)
  {
    forall a, b ensures NodeOrder(a, b) || NodeOrder(b, a) {
      LexLeTotal(a.node.GetOr(""), b.node.GetOr(""));
    }
    forall a, b, c | NodeOrder(a, b) && NodeOrder(b, c) ensures NodeOrder(a, c) {
      LexLeTransitive(a.node.GetOr(""), b.node.GetOr(""), c.node.GetOr(""));
    }
  }

  /** The node's containers, sorted by `vmid`, each mapped to its record (lines 79-80, 118-121). */
  function ContainerRecords(node: Option<string>, up: Upstream): (r: seq<ContainerRecord>)
    ensures var sorted := SortBy(up.Containers(node), ContainerOrder);
      && |r| == |up.Containers(node)|
      && (forall i :: 0 <= i < |r| ==> r[i] == ContainerRecordOf(node, sorted[i], up))
      && (forall i, j :: 0 <= i < j < |r| ==> r[i].id.GetOr(0) <= r[j].id.GetOr(0))
  {
    var sorted := SortBy(up.Containers(node), ContainerOrder);
    ContainerOrderIsTotalPreorder();
    seq(|sorted|, i requires 0 <= i < |sorted| => ContainerRecordOf(node, sorted[i], up))
  }

  /** The dict returned at lines 110-122; building it raises `TypeError` when `disk` is absent. */
  function NodeRecordOf(e: NodeEntry, up: Upstream, rates: Rates): (r: Result<NodeRecord, Error>)
    ensures r.Failure? <==> e.disk.None?
    ensures r.Failure? ==> r.error == TypeError
    ensures r.Success? ==>
      var st := up.NodeStatus(e.node);
      && r.value.name == e.node
      && r.value.cpu == Get(st, "cpu", 0)
      && r.value.memoryUsed == MemoryMiB(st, "mem")
      && r.value.memoryTotal == MemoryMiB(st, "maxmem")
      && Success(r.value.disk) == DiskGiB(e)
      && r.value.netin == rates.netin && r.value.netout == rates.netout
      && r.value.containers == ContainerRecords(e.node, up)
  {
    var st := up.NodeStatus(e.node);
    match DiskGiB(e)
    case Failure(err) => Failure(err)
    case Success(disk) =>
      Success(NodeRecord(
        e.node,
        Get(st, "cpu", 0),
        MemoryMiB(st, "mem"),
        MemoryMiB(st, "maxmem"),
        disk,
        rates.netin,
        rates.netout,
        ContainerRecords(e.node, up)))
  }

  function WindowOrEmpty(windows: map<Option<string>, Window>, node: Option<string>): Window {
    if node in windows then windows[node] else EmptyWindow
  }

  /** The windows of every node seen so far, and what the step returned. */
  datatype Step = Step(windows: map<Option<string>, Window>, result: Result<NodeRecord, Error>)

  /**
   * One call of `get_node_data`. `tRate` is the clock reading of line 102 and
   * `tAppend` that of line 109. The node's window is created if new; when the
   * rate raises, nothing is appended; otherwise one sample is appended to each
   * buffer before the record is built (so a missing `disk` raises after the
   * append).
   */
  function NodeStep(windows: map<Option<string>, Window>, e: NodeEntry, up: Upstream, tRate: real, tAppend: real): (r: Step)
    ensures r.windows.Keys == windows.Keys + {e.node}
    ensures r.result.Success? ==> r.result.value.name == e.node
  {
    var st := up.NodeStatus(e.node);
    var curIn := Get(st, "netin", 0);
    var curOut := Get(st, "netout", 0);
    var w := WindowOrEmpty(windows, e.node);
    match NodeRates(w, curIn, curOut, tRate)
    case Failure(err) => Step(windows[e.node := w], Failure(err))
    case Success(rates) => Step(windows[e.node := Observed(w, curIn, curOut, tAppend)], NodeRecordOf(e, up, rates))
  }

  /** The step changes no other node's window, and keeps every window valid. */
  lemma NodeStepFrame(windows: map<Option<string>, Window>, e: NodeEntry, up: Upstream, tRate: real, tAppend: real)
    requires AllValid(windows)
    ensures var s := NodeStep(windows, e, up, tRate, tAppend);
      && (forall k :: k in windows && k != e.node ==> s.windows[k] == windows[k])
      && AllValid(s.windows)
  {
  }

  /** On a node's first observation both rates are 0 and the window holds just the new sample. */
  lemma FirstObservation(windows: map<Option<string>, Window>, e: NodeEntry, up: Upstream, tRate: real, tAppend: real)
    requires e.node !in windows && e.disk.Some?
    ensures var s := NodeStep(windows, e, up, tRate, tAppend);
      var st := up.NodeStatus(e.node);
      && s.result.Success?
      && s.result.value.netin == 0.0 && s.result.value.netout == 0.0
      && s.windows[e.node] == Window([Get(st, "netin", 0)], [Get(st, "netout", 0)], [tAppend])
  {
  }

  /**
   * On a later observation the rate is taken against the oldest retained
   * sample of the node, whatever the samples in between.
   */
  lemma RateAgainstOldestSample(windows: map<Option<string>, Window>, e: NodeEntry, up: Upstream, tRate: real, tAppend: real)
    requires e.node in windows && WindowValid(windows[e.node]) && windows[e.node].timestamp != []
    requires tRate != windows[e.node].timestamp[0] && e.disk.Some?
    ensures var s := NodeStep(windows, e, up, tRate, tAppend);
      var w := windows[e.node];
      var st := up.NodeStatus(e.node);
      && s.result.Success?
      && s.result.value.netin == CalculateRate(Get(st, "netin", 0), w.netin[0], tRate - w.timestamp[0])
      && s.result.value.netout == CalculateRate(Get(st, "netout", 0), w.netout[0], tRate - w.timestamp[0])
  {
  }

  /** A clock reading equal to the oldest sample's time raises, and leaves the window as it was. */
  lemma ZeroElapsedRaises(windows: map<Option<string>, Window>, e: NodeEntry, up: Upstream, tRate: real, tAppend: real)
    requires e.node in windows && WindowValid(windows[e.node]) && windows[e.node].timestamp != []
    requires tRate == windows[e.node].timestamp[0]
    ensures NodeStep(windows, e, up, tRate, tAppend) == Step(windows, Failure(ZeroDivisionError))
  {
  }

  /**
   * Once a node's window is full, each further observation moves the
   * baseline forward by one sample: the next rate is taken against the
   * second-oldest sample of the full window.
   */
  lemma BaselineSlides(windows: map<Option<string>, Window>, e: NodeEntry, up: Upstream, tRate: real, tAppend: real)
    requires e.node in windows && WindowValid(windows[e.node]) && |windows[e.node].timestamp| == RATES_WINDOW
    requires tRate != windows[e.node].timestamp[0]
    ensures var s := NodeStep(windows, e, up, tRate, tAppend);
      var w := windows[e.node];
      && WindowValid(s.windows[e.node])
      && s.windows[e.node].netin == w.netin[1..] + [Get(up.NodeStatus(e.node), "netin", 0)]
      && Oldest(s.windows[e.node].netin) == Some(w.netin[1])
      && Oldest(s.windows[e.node].netout) == Some(w.netout[1])
      && Oldest(s.windows[e.node].timestamp) == Some(w.timestamp[1])
  {
  }

  /** What a whole poll did: the windows afterwards, and the node records or the exception. */
  datatype Poll = Poll(windows: map<Option<string>, Window>, result: Result<seq<NodeRecord>, Error>)

  /** One call of `get_node_data` on the i-th visited node, given the windows before it. */
  type Visitor = (map<Option<string>, Window>, NodeEntry, nat) -> Step

  /** The visitor of one poll: the i-th node reads the clock as `clock(2 * i)` and `clock(2 * i + 1)`. */
  function Visit(up: Upstream, clock: nat -> real): Visitor {
    (windows: map<Option<string>, Window>, e: NodeEntry, i: nat) => NodeStep(windows, e, up, clock(2 * i), clock(2 * i + 1))
  }

  lemma VisitIsNodeStep(up: Upstream, clock: nat -> real, windows: map<Option<string>, Window>, e: NodeEntry, i: nat)
    ensures Visit(up, clock)(windows, e, i) == NodeStep(windows, e, up, clock(2 * i), clock(2 * i + 1))
  {
  }

  /**
   * `list(map(get_node_data, nodes))` over the first `n` nodes: each node in
   * turn, stopping at the first exception.
   */
  function PollPrefix(windows: map<Option<string>, Window>, nodes: seq<NodeEntry>, n: nat, visit: Visitor): (r: Poll)
    requires n <= |nodes|
    ensures r.result.Success? ==> |r.result.value| == n
    decreases n
  {
    if n == 0 then Poll(windows, Success([]))
    else
      var p := PollPrefix(windows, nodes, n - 1, visit);
      if p.result.Failure? then p
      else
        var s := visit(p.windows, nodes[n - 1], n - 1);
        match s.result
        case Failure(err) => Poll(s.windows, Failure(err))
        case Success(rec) => Poll(s.windows, Success(p.result.value + [rec]))
  }

  /** The nodes of the listing in the order `update_cache` visits them (line 128). */
  function SortedNodes(up: Upstream): (r: seq<NodeEntry>)
    ensures multiset(r) == multiset(up.nodes) && |r| == |up.nodes|
    ensures forall i, j :: 0 <= i < j < |r| ==> LexLe(r[i].node.GetOr(""), r[j].node.GetOr(""))
  {
    NodeOrderIsTotalPreorder();
    SortBy(up.nodes, NodeOrder)
  }

  /**
   * One run of lines 127-129 over all listed nodes. A poll that raises
   * nothing returns one record per listed node, in ascending name order, and
   * every window stays valid.
   */
  function PollAll(windows: map<Option<string>, Window>, up: Upstream, clock: nat -> real): (r: Poll)
    ensures AllValid(windows) ==> AllValid(r.windows)
    ensures r.result.Success? ==> |r.result.value| == |up.nodes|
    ensures AllValid(windows) && r.result.Success? ==>
      forall i, j :: 0 <= i < j < |up.nodes| ==> LexLe(r.result.value[i].name.GetOr(""), r.result.value[j].name.GetOr(""))
  {
    var nodes := SortedNodes(up);
    var p := PollPrefix(windows, nodes, |nodes|, Visit(up, clock));
    if AllValid(windows) then
      VisitFollowsNodes(up, clock);
      PollRecordsFollowNodes(windows, nodes, |nodes|, Visit(up, clock));
      p
    else p
  }

  /** Visiting one more node after a prefix that raised nothing: that node's step, its record appended. */
  lemma PollPrefixNext(windows: map<Option<string>, Window>, nodes: seq<NodeEntry>, n: nat, visit: Visitor,
                       before: map<Option<string>, Window>, records: seq<NodeRecord>, after: map<Option<string>, Window>, r: Result<NodeRecord, Error>)
    requires n < |nodes|
    requires PollPrefix(windows, nodes, n, visit) == Poll(before, Success(records))
    requires Step(after, r) == visit(before, nodes[n], n)
    ensures PollPrefix(windows, nodes, n + 1, visit)
      == Poll(after, if r.Success? then Success(records + [r.value]) else Failure(r.error))
  {
  }

  /** Once a node has raised, the rest of the listing is not visited. */
  lemma {:induction false} PollFailureSticks(windows: map<Option<string>, Window>, nodes: seq<NodeEntry>, n: nat, m: nat, visit: Visitor)
    requires n <= m <= |nodes|
    ensures PollPrefix(windows, nodes, n, visit).result.Failure? ==>
      PollPrefix(windows, nodes, m, visit) == PollPrefix(windows, nodes, n, visit)
    decreases m - n
  {
    if n < m && PollPrefix(windows, nodes, n, visit).result.Failure? {
      PollFailureSticks(windows, nodes, n, m - 1, visit);
    }
  }

  /** Every step of `visit` keeps all windows valid and names its record after the node it visited. */
  ghost predicate StepsFollowNodes(visit: Visitor) {
    forall windows, e, i: nat ::
      AllValid(windows) ==>
        && AllValid(visit(windows, e, i).windows)
        && (visit(windows, e, i).result.Success? ==> visit(windows, e, i).result.value.name == e.node)
  }

  /** The steps of a poll are `get_node_data` calls, which have that property. */
  lemma VisitFollowsNodes(up: Upstream, clock: nat -> real)
    ensures StepsFollowNodes(Visit(up, clock))
  {
    forall windows, e, i: nat | AllValid(windows)
      ensures AllValid(Visit(up, clock)(windows, e, i).windows)
      ensures Visit(up, clock)(windows, e, i).result.Success? ==> Visit(up, clock)(windows, e, i).result.value.name == e.node
    {
      VisitIsNodeStep(up, clock, windows, e, i);
      NodeStepFrame(windows, e, up, clock(2 * i), clock(2 * i + 1));
    }
  }

  /**
   * A successful poll yields the records of the visited nodes, in the
   * visiting order, and keeps every window valid.
   */
  lemma {:induction false} PollRecordsFollowNodes(windows: map<Option<string>, Window>, nodes: seq<NodeEntry>, n: nat, visit: Visitor)
    requires n <= |nodes| && AllValid(windows) && StepsFollowNodes(visit)
    ensures var p := PollPrefix(windows, nodes, n, visit);
      && AllValid(p.windows)
      && (p.result.Success? ==> forall i :: 0 <= i < n ==> p.result.value[i].name == nodes[i].node)
    decreases n
  {
    if n > 0 {
      PollRecordsFollowNodes(windows, nodes, n - 1, visit);
      var p := PollPrefix(windows, nodes, n - 1, visit);
      if p.result.Success? {
        var s := visit(p.windows, nodes[n - 1], n - 1);
        PollPrefixNext(windows, nodes, n - 1, visit, p.windows, p.result.value, s.windows, s.result);
        if s.result.Success? {
          var recs := p.result.value + [s.result.value];
          forall i | 0 <= i < n ensures recs[i].name == nodes[i].node {
            if i < n - 1 {
              assert recs[i] == p.result.value[i];
            }
          }
        }
      }
    }
  }

  /** A node without `disk` raises whatever its window holds. */
  lemma NodeStepWithoutDisk(windows: map<Option<string>, Window>, e: NodeEntry, up: Upstream, tRate: real, tAppend: real)
    requires e.disk.None?
    ensures NodeStep(windows, e, up, tRate, tAppend).result.Failure?
  {
  }

  /** A listed node without `disk` makes the whole poll raise (so `data_cache` is not replaced). */
  lemma {:induction false} MissingDiskFailsPoll(windows: map<Option<string>, Window>, nodes: seq<NodeEntry>, n: nat, up: Upstream, clock: nat -> real, i: nat)
    requires i < n <= |nodes| && nodes[i].disk.None?
    ensures PollPrefix(windows, nodes, n, Visit(up, clock)).result.Failure?
    decreases n
  {
    var visit := Visit(up, clock);
    if i < n - 1 {
      MissingDiskFailsPoll(windows, nodes, n - 1, up, clock, i);
      PollFailureSticks(windows, nodes, n - 1, n, visit);
    } else {
      var p := PollPrefix(windows, nodes, i, visit);
      if p.result.Success? {
        NodeStepWithoutDisk(p.windows, nodes[i], up, clock(2 * i), clock(2 * i + 1));
        assert visit(p.windows, nodes[i], i) == NodeStep(p.windows, nodes[i], up, clock(2 * i), clock(2 * i + 1));
      }
    }
  }
}
