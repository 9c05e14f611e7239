# Eupnea monitoring dashboard — verified model of the core

Eupnea is a small dashboard for a Proxmox cluster. A Python backend polls
the cluster's HTTP API. For every node it reports CPU, memory, disk and
network throughput, together with the node's containers, and it pushes the
result to browser clients over a websocket. A Solid front end renders one
card per container. It decodes a label such as "Polkadot Validator 1" from
the digits of the container id.

This project models that core in Dafny and proves its properties.

- `backend/eupnea.py`: the bounded sample buffer, `calculate_rate`, and
  `get_node_data` with its per-node `prev_data` buffers. Rates are taken
  against the oldest retained sample. Also `update_cache`, which replaces
  `data_cache["data"]`, and the per-subscriber change detection of
  `MyServerProtocol`.
- `main.py`: the stateless server. It maps node and container
  records and wraps them in `{'data': ...}`, or sends `{'error': ...}`.
- `frontend/src/components/ContainerInfo.tsx`: the id-digit decoding
  (role, network, instance), `statusClass`, and the short host name.

## Modules

| file | module | what it holds |
|---|---|---|
| wrappers.dfy | `Wrappers` | `Option` and `Result` |
| sorting.dfy | `Sorting` | Python's `sorted` as an insertion sort; Python's `str` ordering |
| circular_buffer.dfy | `CircularBuffers` | `CircularBuffer` as a class over a `seq`, and the pure functions that specify it |
| proxmox.dfy | `Proxmox` | the upstream API answers as input maps; unit conversions; the container record shared by both servers |
| eupnea.dfy | `Eupnea` | rates, the node record, and one `get_node_data` call and one poll as functions on values |
| eupnea_backend.dfy | `EupneaBackend` | class `Backend`: `prev_data` and `data_cache`, updated in place and proved against `Eupnea` |
| eupnea_server.dfy | `EupneaServer` | the subscriber state machine, as a function over events and as class `ServerProtocol` |
| main_server.dfy | `MainServer` | main.py's record mapping and its `send_updates` message |
| container_info.dfy | `ContainerInfo` | the card's label decoding, status class and short name |

Inputs that the source reads from the outside world are parameters here.

- Every HTTP GET of one poll is a field of `Proxmox.Upstream`. A GET that
  fails returns `{}` in the source. Here that is a key absent from the
  map, which reads as an empty object or an empty listing.
- The two `time.time()` readings of each `get_node_data` call (lines 102
  and 109) are the parameters `tRate` and `tAppend`. A whole poll takes a
  `clock: nat -> real`, and node `i` reads `clock(2 * i)` and
  `clock(2 * i + 1)`.
- The websocket state `self.state == STATE_OPEN` is the boolean `open`.
- A message sent is a returned value.
- A `reactor.callLater` rescheduling is a returned flag `rescheduled`.

Python exceptions are `Result` failures:

- `TypeError` comes from `int(None / ...)` when a node has no `disk`.
- `ZeroDivisionError` comes from `calculate_rate` when the elapsed time is 0.

## Model

| member | source | states |
|---|---|---|
| CircularBuffers.PushBounded | backend/eupnea.py:13-16 | appending below capacity adds at the end; at capacity the oldest element is dropped and the new one added |
| CircularBuffers.Oldest | backend/eupnea.py:18-19 | `None` exactly on an empty buffer, otherwise the first element |
| CircularBuffers.Newest | backend/eupnea.py:21-22 | `None` exactly on an empty buffer, otherwise the last element |
| CircularBuffers.LastNPush | backend/eupnea.py:15-16 | keeping the last `n` values and then appending is keeping the last `n` of the extended history |
| CircularBuffers.AppendAllKeepsLastN | backend/eupnea.py:12-16 | after any sequence of appends, the buffer holds the last `maxlen` values appended, in order |
| CircularBuffers.FromEmptyKeepsLastN | backend/eupnea.py:12-16 | a buffer filled from empty holds at most `maxlen` values: the last `maxlen` appended |
| CircularBuffers.OldestSlides | backend/eupnea.py:15-19 | once `cap` values are retained, each append moves the oldest retained value forward by one position in the history |
| CircularBuffers.CircularBuffer.constructor | backend/eupnea.py:12-13 | a new buffer is empty, with the given capacity |
| CircularBuffers.CircularBuffer.Append | backend/eupnea.py:15-16 | the contents become the bounded push of the value; the last-`maxlen` invariant is kept |
| CircularBuffers.CircularBuffer.GetOldest | backend/eupnea.py:18-19 | the first retained value; once the history outgrows `maxlen`, the value appended `maxlen` appends ago |
| CircularBuffers.CircularBuffer.GetNewest | backend/eupnea.py:21-22 | the last retained value; under the history invariant, the most recently appended value |
| Proxmox.TruncDiv | backend/eupnea.py:65 | `int(x / d)` truncates toward zero: bounds for non-negative and negative `x` |
| Proxmox.MemoryMiB | backend/eupnea.py:65-66 | 0 when the field is missing, otherwise the whole number of MiB, truncated toward zero |
| Proxmox.ContainerRecordOf | backend/eupnea.py:52-69 | id and status from the listing entry, hostname from the config (absent if missing), cpu/netin/netout defaulting to 0, memory in MiB; main.py:59-75 builds the same record |
| Proxmox.DiskGiB | backend/eupnea.py:115 | raises `TypeError` exactly when `disk` is missing; otherwise whole GiB |
| Sorting.Insert | backend/eupnea.py:80 | inserting keeps the multiset, adds one element, yields only the new element and old ones, and keeps a sorted list sorted |
| Sorting.SortBy | backend/eupnea.py:80 | `sorted`: a permutation of the input, sorted under any total preorder |
| Sorting.LexLeTotal | backend/eupnea.py:128 | any two strings are comparable |
| Sorting.LexLeTransitive | backend/eupnea.py:128 | string order is transitive |
| Eupnea.CalculateRate | backend/eupnea.py:72-73 | the rate times the elapsed time is 8 times the byte difference; on positive elapsed time it is negative exactly when the counter went down |
| Eupnea.NodeRates | backend/eupnea.py:92-105 | both rates 0 while any buffer is empty; otherwise computed against the oldest samples, raising `ZeroDivisionError` exactly when the clock equals the oldest timestamp |
| Eupnea.Observed | backend/eupnea.py:107-109 | one sample appended to each buffer keeps the three lengths equal and at most 30, growing by one until full; each newest value is the new sample |
| Eupnea.OldestChecksAgree | backend/eupnea.py:93-101 | on a valid window the three `get_oldest` results are all `None` or all present |
| Eupnea.ContainerOrderIsTotalPreorder | backend/eupnea.py:80 | the `vmid` key order (missing as 0) is a total preorder |
| Eupnea.NodeOrderIsTotalPreorder | backend/eupnea.py:128 | the `node` key order (missing as "") is a total preorder |
| Eupnea.ContainerRecords | backend/eupnea.py:118-121 | one record per listed container, built from the sorted listing, with ids ascending |
| Eupnea.NodeRecordOf | backend/eupnea.py:110-122 | raises `TypeError` exactly when `disk` is missing; otherwise the name, defaults, MiB/GiB conversions, the two rates and the sorted containers |
| Eupnea.NodeStep | backend/eupnea.py:76-122 | one `get_node_data` call: `prev_data` gains exactly the node's key, and a returned record carries the node's own name |
| Eupnea.NodeStepFrame | backend/eupnea.py:85-109 | a call changes no other node's buffers and keeps every window valid |
| Eupnea.FirstObservation | backend/eupnea.py:85-101 | on a node's first observation both rates are 0 and each buffer holds just the new sample |
| Eupnea.RateAgainstOldestSample | backend/eupnea.py:93-105 | later rates are taken against the oldest retained sample |
| Eupnea.ZeroElapsedRaises | backend/eupnea.py:102-103 | a clock equal to the oldest timestamp raises `ZeroDivisionError` before anything is appended |
| Eupnea.BaselineSlides | backend/eupnea.py:93-109 | with a full window, a call drops the oldest sample, so the next baseline is the previous second-oldest sample |
| Eupnea.SortedNodes | backend/eupnea.py:128 | the nodes are visited as a permutation of the listing, in ascending name order |
| Eupnea.PollPrefix | backend/eupnea.py:129 | `map` over the first `n` nodes, stopping at the first exception; on success exactly `n` records |
| Eupnea.PollAll | backend/eupnea.py:127-129 | one poll over the sorted listing: windows stay valid; on success one record per listed node, in ascending name order |
| Eupnea.PollPrefixNext | backend/eupnea.py:129 | visiting one more node runs its step and appends its record, or ends the poll with its exception |
| Eupnea.PollFailureSticks | backend/eupnea.py:126-133 | after a node raises, no later node is visited |
| Eupnea.PollRecordsFollowNodes | backend/eupnea.py:129 | for any per-node step that keeps windows valid and names its record after its node (as `NodeStep` does), a poll keeps every window valid and a successful poll has one record per node, named as the visited nodes in order |
| Eupnea.NodeStepWithoutDisk | backend/eupnea.py:115 | a node without `disk` raises |
| Eupnea.MissingDiskFailsPoll | backend/eupnea.py:125-133 | any visited node without `disk` makes the whole poll raise |
| EupneaBackend.Backend.constructor | backend/eupnea.py:34-35 | `prev_data` and `data_cache` start empty |
| EupneaBackend.Backend.GetNodeData | backend/eupnea.py:76-122 | the new `prev_data` and the result are those of one `get_node_data` step; `data_cache` is untouched; windows stay valid |
| EupneaBackend.Backend.PollNext | backend/eupnea.py:129 | the loop body: one more node of the poll |
| EupneaBackend.Backend.PollNodes | backend/eupnea.py:127-129 | the loop over the sorted nodes leaves `prev_data` and the result of the whole poll |
| EupneaBackend.Backend.UpdateCache | backend/eupnea.py:125-133 | `data_cache["data"]` is replaced wholesale exactly when the poll raised nothing, and only then is the poll rescheduled |
| EupneaServer.Send | backend/eupnea.py:150-163 | sends exactly when connected, open and the cache differs from the last sent; then records it; reschedules exactly when connected |
| EupneaServer.Apply | backend/eupnea.py:145-169 | `onOpen` connects, `onClose` disconnects; a message is sent only by an update of a connected subscriber, carries that update's cache, differs from the last sent and becomes it; otherwise `last_sent_data` is unchanged |
| EupneaServer.Run | backend/eupnea.py:145-169 | at most one message per event, and every message sent is the cache of some update on an open connection |
| EupneaServer.RepeatIsSilent | backend/eupnea.py:157-159 | a second call with an unchanged cache sends nothing |
| EupneaServer.ClosedIsSilent | backend/eupnea.py:167-169 | after `onClose`, nothing is sent until the connection is opened again |
| EupneaServer.RunSendsChangesOnly | backend/eupnea.py:150-159 | over any sequence of events, consecutive messages differ and the last one sent is remembered |
| EupneaServer.FirstUpdateSends | backend/eupnea.py:145-159 | a freshly opened subscriber is sent the cache at its first update |
| EupneaServer.ServerProtocol.constructor | backend/eupnea.py:137-140 | not connected, nothing sent yet |
| EupneaServer.ServerProtocol.OnOpen | backend/eupnea.py:145-148 | the fields move as the `Opened` event prescribes |
| EupneaServer.ServerProtocol.SendUpdates | backend/eupnea.py:150-163 | fields, message and rescheduling are those of `Send` |
| EupneaServer.ServerProtocol.OnClose | backend/eupnea.py:167-169 | the fields move as the `Closed` event prescribes |
| MainServer.ContainerRecords | main.py:93 | one record per listed container, in listing order (no sort) |
| MainServer.NodeRecordOf | main.py:77-94 | raises `TypeError` exactly when `disk` is missing; netin/netout are the raw counters; containers in listing order |
| MainServer.NodesData | main.py:31 | the records of all nodes, or `TypeError`; on success one record per node |
| MainServer.NodesDataFollowsListing | main.py:30-31 | building raises exactly when some node lacks `disk`; otherwise one record per node, in listing order |
| MainServer.SendUpdates | main.py:28-44 | a message is sent exactly when open: `{'data': ...}` on success, `{'error': ...}` on an exception; rescheduled exactly on success |
| MainServer.DataMessageFollowsListing | main.py:30-35 | with every `disk` present, the data message lists every node in listing order with its raw counters |
| ContainerInfo.DecimalDigits | frontend/src/components/ContainerInfo.tsx:89 | `String(n)`: non-empty, all decimal digits, no leading zero |
| ContainerInfo.DecimalRoundTrip | frontend/src/components/ContainerInfo.tsx:89 | reading the rendered digits back gives the number |
| ContainerInfo.DecimalLength | frontend/src/components/ContainerInfo.tsx:89 | the rendering has a second digit exactly from 10 on, a third exactly from 100 on |
| ContainerInfo.IdText | frontend/src/components/ContainerInfo.tsx:89 | starts with `-` exactly for negative ids, otherwise the decimal digits |
| ContainerInfo.CharAt | frontend/src/components/ContainerInfo.tsx:89 | a destructured character is defined exactly within the string |
| ContainerInfo.Role | frontend/src/components/ContainerInfo.tsx:37-44 | a role is defined exactly for first digits 1 to 6 |
| ContainerInfo.PrimaryNetwork | frontend/src/components/ContainerInfo.tsx:47-51 | defined exactly for 1 to 3 |
| ContainerInfo.Parachain | frontend/src/components/ContainerInfo.tsx:54-65 | defined exactly for decimal digits |
| ContainerInfo.Network | frontend/src/components/ContainerInfo.tsx:93-98 | defined exactly when the second digit is 1-3 after a primary first digit, or any decimal digit otherwise |
| ContainerInfo.Instance | frontend/src/components/ContainerInfo.tsx:100 | `'0'` becomes `"00"` and only it; another digit is shown as itself; missing stays missing |
| ContainerInfo.Decode | frontend/src/components/ContainerInfo.tsx:89-100 | only a positive id names a role; the instance is defined exactly for ids of at least 100 or at most -10 |
| ContainerInfo.LabelLine | frontend/src/components/ContainerInfo.tsx:105 | the line is shown exactly when both network and role are defined, as `network role instance` |
| ContainerInfo.ThreeDigitId | frontend/src/components/ContainerInfo.tsx:89 | a three-digit id splits into its hundreds, tens and units digits |
| ContainerInfo.ThreeDigitLabel | frontend/src/components/ContainerInfo.tsx:89-105 | a three-digit id is labelled exactly when hundreds and tens are both 1-3, or hundreds is 4-6 |
| ContainerInfo.LabelExamples | frontend/src/components/ContainerInfo.tsx:89-105 | ids 111 and 420 are labelled "Polkadot Validator 1" and "Kusama Asset Hub Collator 00" |
| ContainerInfo.ParachainCoversDigits | frontend/src/components/ContainerInfo.tsx:94-98 | outside the primary range any decimal second digit names a network |
| ContainerInfo.NegativeIdUnlabelled | frontend/src/components/ContainerInfo.tsx:89-91 | a negative id names no role and shows no label |
| ContainerInfo.StatusClass | frontend/src/components/ContainerInfo.tsx:87 | `bg-hex-AECE4B` exactly for `running`, otherwise `bg-red` |
| ContainerInfo.ShortName | frontend/src/components/ContainerInfo.tsx:104 | a prefix of the host name, without a dot, ending just before the first dot |
| ContainerInfo.ShortNameOfDotted | frontend/src/components/ContainerInfo.tsx:104 | the short name of `short.rest` is `short` |
| ContainerInfo.LabelAsWritten | frontend/src/components/ContainerInfo.tsx:37-44 | as written, the unbound `firstDigit` raises a `ReferenceError` for every id |
| ContainerInfo.RoleLookupDiscrepancy | frontend/src/components/ContainerInfo.tsx:91 | id 111 raises as written but is labelled by the intended decoding |

## Behaviour worth noting

- A clock reading equal to a node's oldest retained timestamp makes
  `calculate_rate` divide by zero. The `ZeroDivisionError` aborts the whole
  `update_cache`, before that node's samples are appended
  (Eupnea.ZeroElapsedRaises).
- `update_cache` calls `reactor.callLater` inside its `try` (line 131 of
  backend/eupnea.py). One exception therefore stops the polling for good,
  and `data_cache` keeps its last value (EupneaBackend.Backend.UpdateCache).
- A listed node without `disk` raises `TypeError` after its samples were
  appended, and fails the whole poll (Eupnea.MissingDiskFailsPoll). In
  main.py it fails the whole message, which becomes `{'error': ...}`
  (MainServer.SendUpdates).
- Only nodes get rates. Containers report their raw cumulative
  `netin`/`netout` counters, in both servers.
- A subscriber detects change by comparing the whole `data_cache` with its
  copy of what it last sent. A cache that is still `{}` is sent once on the
  first update after `onOpen` (EupneaServer.FirstUpdateSends).

## Left out

- HTTP fetching, `raise_for_status`, the `.env` configuration and the `{}` fallback on errors are not modelled as I/O. A failed GET is an absent key in `Proxmox.Upstream`.
- Non-object JSON answers are not modelled, such as a listing that is a dict.
- The Twisted reactor, `listenTCP`, the autobahn framing and `sendMessage` are not modelled. A send is a returned value and a `callLater` a returned flag. An exception raised by `sendMessage` itself (line 164 of backend/eupnea.py) is not modelled.
- EupneaServer.ServerProtocol.OnOpen: the `callLater(0, self.send_updates)` of line 148 is not returned. The first update after opening is an `Update` event like any other.
- Timers and concurrency between `update_cache` and the subscribers are not modelled. A subscriber is given the cache as a parameter.
- `time.time()` is the `tRate`/`tAppend`/`clock` parameters.
- `print` output is not modelled.
- Numbers are not modelled as floats.
  - Byte counters and status numbers are `int`.
  - `cpu` is passed through as an opaque `int`.
  - Timestamps and rates are exact `real`s, so float rounding in `calculate_rate` is not modelled.
- EupneaBackend.Backend: `prev_data`'s per-node buffers are held as the values of their contents, updated by `PushBounded`. `CircularBuffer.Append` is proved to perform exactly that update. Object identity and aliasing of the buffer objects are not modelled. The source creates three fresh buffers per node and never shares them.
- Sorting.SortBy: states permutation and order, not the stability of Python's `sorted`. Among equal keys (two containers with the same `vmid`, two nodes with the same name) the order is not stated.
- Eupnea.NodeOrderIsTotalPreorder: a node whose `node` field is absent is sorted as `""`. This matches `x.get("node", "")`. A non-string name is not modelled.
- `humanReadableSize`, `UsageBar`, `StatusBar`, `NodeInfo`, `routes/index.tsx`, `root.tsx` and `vite.config.ts` are not part of this model: they are floating-point formatting, UI or transport.
- The Polkadot block-height fetch and the Solid signals and effects are not part of this model.
- ContainerInfo.IdText: models `String(id)` for integer ids only. JavaScript's exponent form for very large numbers and non-integer ids are not modelled.
- ContainerInfo.IdText: a container without `vmid` reaches the card as `null`. `String(null)` is `"null"`, and no label is shown. A `null` id is not modelled; the id is an `int`.
- ContainerInfo.ShortName: models a string host name. A `null` hostname from the backend would make `split` throw at render, and this is not modelled.
- ContainerInfo.Role: the role table at lines 37-44 is used as the `roleMapping` of line 91. As written the code raises instead; see Findings.

## Findings

| source | as written | input that shows it | evidently intended | confidence | as-written member | corrected member |
|---|---|---|---|---|---|---|
| frontend/src/components/ContainerInfo.tsx:37-44, 91 | the role table is indexed at module scope by `firstDigit`, which is unbound there, and line 91 looks up an unbound `roleMapping`: loading the module raises `ReferenceError` | id 111 (any id) | the table of lines 38-43 is the `roleMapping` of line 91, so id 111 shows "Polkadot Validator 1" | high (not executed) | ContainerInfo.LabelAsWritten | ContainerInfo.Role |
