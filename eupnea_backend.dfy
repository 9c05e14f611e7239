/**
 * backend/eupnea.py, module state: `prev_data`, the three sample buffers of
 * every node seen so far, and `data_cache`, which subscribers are sent.
 * `get_node_data` and `update_cache` update them in place; each is proved
 * against the value-level step of module Eupnea.
 *
 * Each node's three buffers are held as the `Window` of their contents;
 * appending to one is `PushBounded`, which is what `CircularBuffer.Append`
 * is proved to do to its `data`.
 */
module EupneaBackend {
  import opened Wrappers
  import opened CircularBuffers
  import opened Proxmox
  import opened Eupnea

  /** The cache that subscribers are sent: empty until the first poll sets `"data"`. */
  type Cache = map<string, seq<NodeRecord>>

  class Backend {
    /** `prev_data`: the retained samples of every node seen so far. */
    var prevData: map<Option<string>, Window>
    /** `data_cache`. */
    var dataCache: Cache

    /** Every node's three buffers have the same length, at most `RATES_WINDOW`. */
    ghost predicate Valid()
      reads this
    {
      AllValid(prevData)
    }

    /** Lines 34-35: both dicts start empty. */
    constructor ()
      ensures Valid()
      ensures prevData == map[] && dataCache == map[]
    {
      prevData := map[];
      dataCache := map[];
    }

    /**
     * `get_node_data` (lines 76-122); `tRate` and `tAppend` are the clock
     * readings of lines 102 and 109.
     */
    method GetNodeData(e: NodeEntry, up: Upstream, tRate: real, tAppend: real) returns (r: Result<NodeRecord, Error>)
      requires Valid()
      modifies this
      ensures Valid()
      ensures Step(prevData, r) == NodeStep(old(prevData), e, up, tRate, tAppend)
      ensures dataCache == old(dataCache)
    {
      var name := e.node;
      var status := up.NodeStatus(name);
      var curIn := Get(status, "netin", 0);
      var curOut := Get(status, "netout", 0);
      if name !in prevData {
        prevData := prevData[name := EmptyWindow];
      }
      var w := prevData[name];
      assert w == WindowOrEmpty(old(prevData), name);
      var netinRate, netoutRate := 0.0, 0.0;
      var prevIn, prevOut, prevTime := Oldest(w.netin), Oldest(w.netout), Oldest(w.timestamp);
      if prevIn.Some? && prevOut.Some? && prevTime.Some? {
        var elapsed := tRate - prevTime.value;
        if elapsed == 0.0 {
          return Failure(ZeroDivisionError);
        }
        netinRate := CalculateRate(curIn, prevIn.value, elapsed);
        netoutRate := CalculateRate(curOut, prevOut.value, elapsed);
      }
      prevData := prevData[name := Observed(w, curIn, curOut, tAppend)];
      r := NodeRecordOf(e, up, Rates(netinRate, netoutRate));
    }

    /** One element of `map(get_node_data, nodes)`: the `i`-th node, after `i` nodes that raised nothing. */
    method PollNext(up: Upstream, clock: nat -> real, nodes: seq<NodeEntry>, i: nat, ghost start: map<Option<string>, Window>, records: seq<NodeRecord>)
        returns (polled: Result<seq<NodeRecord>, Error>)
      requires Valid() && i < |nodes|
      requires PollPrefix(start, nodes, i, Visit(up, clock)) == Poll(prevData, Success(records))
      modifies this
      ensures Valid() && dataCache == old(dataCache)
      ensures PollPrefix(start, nodes, i + 1, Visit(up, clock)) == Poll(prevData, polled)
    {
      var r := GetNodeData(nodes[i], up, clock(2 * i), clock(2 * i + 1));
      VisitIsNodeStep(up, clock, old(prevData), nodes[i], i);
      PollPrefixNext(start, nodes, i, Visit(up, clock), old(prevData), records, prevData, r);
      polled := if r.Success? then Success(records + [r.value]) else Failure(r.error);
    }

    /**
     * Line 129, `list(map(get_node_data, nodes))` over the sorted listing:
     * the records of all nodes, or the first exception raised.
     */
    method PollNodes(up: Upstream, clock: nat -> real) returns (polled: Result<seq<NodeRecord>, Error>)
      requires Valid()
      modifies this
      ensures Valid() && dataCache == old(dataCache)
      ensures PollAll(old(prevData), up, clock) == Poll(prevData, polled)
    {
      var nodes := SortedNodes(up);
      polled := Success([]);
      var i := 0;
      while i < |nodes| && polled.Success?
        invariant 0 <= i <= |nodes|
        invariant Valid() && dataCache == old(dataCache)
        invariant PollPrefix(old(prevData), nodes, i, Visit(up, clock)) == Poll(prevData, polled)
      {
        polled := PollNext(up, clock, nodes, i, old(prevData), polled.value);
        i := i + 1;
      }
      PollFailureSticks(old(prevData), nodes, i, |nodes|, Visit(up, clock));
    }

    /**
     * `update_cache` (lines 125-133): poll every node, then replace
     * `data_cache["data"]` wholesale. An exception leaves `data_cache` as it
     * was and, because the rescheduling call sits inside the `try`, stops
     * the polling: `rescheduled` is false.
     */
    method UpdateCache(up: Upstream, clock: nat -> real) returns (rescheduled: bool)
      requires Valid()
      modifies this
      ensures Valid()
      ensures var p := PollAll(old(prevData), up, clock);
        && prevData == p.windows
        && rescheduled == p.result.Success?
        && dataCache == if p.result.Success? then old(dataCache)["data" := p.result.value] else old(dataCache)
    {
      var polled := PollNodes(up, clock);
      if polled.Success? {
        dataCache := dataCache["data" := polled.value];
      }
      rescheduled := polled.Success?;
    }
  }
}
