# ipfs-manager: the block classifier, DAG builder and log of `app.js`

The manager lists the refs pinned on an IPFS node. It checks each ref in turn.
A ref whose object is a UnixFS-style directory is put into a graphlib graph as
a node, with one labelled edge (`{name, size}`) to the target of each of its
links. The roots of the resulting forest are the graph's sources. Two caches
remember classifications across passes:

- `nonDirBlocks` holds refs known not to be directories.
- `dirBlocks` holds the objects of refs known to be directories.

A bounded activity log shows progress, newest entry first.

The model has five modules:

- `Wrappers` (wrappers.dfy) holds the `Option` type.
- `Graphlib` (graphlib.dfy) is the part of graphlib's `Graph` the manager uses.
  - It has a simple directed graph value: nodes in insertion order, and one
    labelled edge per ordered pair of nodes.
  - Its operations are `setNode`, `setEdge` and `sources()`.
  - The graph calls are also written as data (`Op`), so a run of calls can be
    reasoned about as a sequence.
  - The class `Graph` holds the graph as fields that its methods update in place.
- `AppLog` (applog.dfy) is the log.
  - `Logged` is one call of `log(m)`; `LoggedAll` is a run of them.
  - Entries are `Entry(index, message)`, and at most 50 are kept.
- `Blocks` (blocks.dfy) is the specification of `checkDirectory` and of the pin
  loop of `componentDidMount`, as functions on the value of the state they
  update, `Store(g, nonDirBlocks, dirBlocks)`.
  - `CheckDirectory` returns the new store, the messages logged and whether
    the check threw.
  - `PinLoop` runs the checks over the pins and stops at the first throw.
  - The lemmas state what a check and a run of the loop do to the graph and
    the caches. This includes idempotence: a second run over the same pins
    leaves the graph as the first run left it.
- `IpfsManager` (app.dfy) is the `App` component as a class.
  - Its fields are the module-level graph and caches and the component state:
    `log`, `logIndex`, `npins` and `sources`.
  - Its methods follow the source statement by statement: the `for` loop over
    the pins and the `forEach` over the links are `while` loops.
  - Each method is proved to leave exactly the state that the functions of
    `Blocks` and `AppLog` describe.
  - A ghost field `history` records every message logged. The class invariant
    ties `log` and `logIndex` to it.

External behaviour becomes parameters:

- `ipfs.pin.ls()` is an `Option<seq<Pin>>`: `None` when the call fails.
- `ipfs.object.get` is a function `ObjectGet` from ref to `Option<ObjectRecord>`:
  `None` when the call or the decoding of the object fails.
- The `cids` parser is a function `CidCodec` from ref to the CID's codec:
  `None` when `new CID(ref)` throws.

Three behaviours of app.js shape the model:

- A known non-directory is skipped before its CID is parsed (app.js:57-61),
  so its codec is never looked at.
- `new graphlib.Graph()` is a simple graph (app.js:13): a second `setEdge` on
  the same pair replaces the label (app.js:74), so the last link to a target
  wins.
- `new CID(ref)` runs outside the `try` (app.js:61, 68). A ref that is not a
  CID makes `checkDirectory` throw. The throw propagates out of the `for`
  loop (app.js:34-37), so `componentDidMount` logs no "finished" line and does
  not compute the sources. `PinLoop` stops at such a throw, and
  `Checked.threw` reports it.

## Model

| member | source | states |
|---|---|---|
| Graphlib.Graph.constructor | app.js:13 | a new graph is well formed and has no nodes and no edges |
| Graphlib.Graph.SetNode | app.js:71-73 | `setNode(v)` appends `v` to the nodes unless it is already there; the graph stays well formed |
| Graphlib.Graph.SetEdge | app.js:74 | `setEdge(v, w, label)` makes `v` and `w` nodes, then sets or replaces the label of the single edge `(v, w)`; the graph stays well formed |
| Graphlib.ApplyAllNodes | app.js:71-75 | a run of graph calls keeps the old nodes as a prefix, in order; afterwards a node is an old node or one the calls name, and nothing else |
| Graphlib.ApplyAllEdges | app.js:71-75 | a run of graph calls keeps every old edge; it writes the edges its `setEdge` calls name, and the last label written to a pair wins |
| Graphlib.ApplyAllKeepsNodes | app.js:71-75 | calls that name only existing nodes leave the node list exactly as it was |
| Graphlib.ApplyAllWellformed | app.js:71-75 | graph calls keep the nodes distinct and every edge between two nodes |
| Graphlib.ApplyAllTwice | app.js:71-75 | making the same graph calls a second time changes nothing: `setNode` is idempotent and `setEdge` overwrites with the same label |
| Graphlib.SourcesOf | app.js:42 | a member of the node list is kept exactly when no edge points to it; distinct nodes give distinct sources |
| Graphlib.Sources | app.js:42 | `g.sources()` holds exactly the nodes with no incoming edge, self-loops included, each once |
| AppLog.Logged | app.js:47-53 | after `log(m)` the log has one more entry, at most 50, and the first is `m` tagged with the current index |
| AppLog.LoggedShifts | app.js:49-50 | after `log(m)` the old entries follow the new one in their old order, as many as fit in 50 |
| AppLog.LoggedConsistent | app.js:47-53 | `log(m)` with the running index keeps the log consistent (newest first, consecutive indices, length the number logged up to 50) with the incremented index |
| AppLog.LoggedAllNewestFirst | app.js:47-53 | after logging a run of messages, the newest comes first, each with its own index, followed by the old log, cut at 50 entries |
| AppLog.HistoryConsistent | app.js:47-53 | starting from an empty log with index 1 (app.js:20-21), any run of `log` calls leaves a consistent log whose index is one past the number of messages |
| Blocks.SkipsKnownNonDirectory | app.js:57-59 | a ref in `nonDirBlocks` returns at once: nothing is logged, fetched or changed, and nothing throws |
| Blocks.IgnoresOtherCodecs | app.js:63-65 | a CID whose codec is neither dag-pb nor dag-cbor is ignored before anything is logged; the graph and both caches are unchanged |
| Blocks.ThrowsOnInvalidCid | app.js:61 | a ref that is not a known non-directory and is not a CID makes the check throw with nothing changed and nothing logged |
| Blocks.NoFetchWhenNotNeeded | app.js:57-69 | for a known non-directory, a cached directory or a ref whose codec cannot hold a directory, the outcome does not depend on the fetch |
| Blocks.Classification | app.js:67-81 | once the object is in hand, the check logs `fetching ref` and does not throw; the ref goes to `nonDirBlocks` exactly when the object is not a directory (first link present with a non-empty name), leaving the graph and `dirBlocks` alone; a directory goes to `dirBlocks` with its object and `nonDirBlocks` is untouched |
| Blocks.LinkOpsMentioned | app.js:72-75 | the `forEach` over the links names their targets, and the parent when there is a link, and no other node |
| Blocks.LinkOpsWritten | app.js:72-75 | the `forEach` over the links writes an edge from the parent to each target and to nothing else |
| Blocks.LinkOpsLabels | app.js:72-75 | the edge to a target carries the name and size of the last link to that target |
| Blocks.DirectoryNodes | app.js:70-75 | for a directory, the old nodes keep their places, and afterwards the nodes are the old ones, the directory and its link targets |
| Blocks.DirectoryEdges | app.js:70-75 | for a directory, there is an edge from it to every link target, labelled by the last link to that target; every other edge is kept with its label, and no other edge is added |
| Blocks.FailedFetchChangesNothing | app.js:68-85 | a failed fetch is caught after the `fetching` line: nothing is cached and the graph is unchanged |
| Blocks.FailedFetchIsRetried | app.js:68-85 | because a failed fetch caches nothing, a later check whose fetch succeeds classifies the ref |
| Blocks.OneCacheUpdated | app.js:69-82 | a check updates at most one cache, and only at `ref`; every known non-directory stays known; existing `dirBlocks` entries of other refs are unchanged; a ref newly put into `nonDirBlocks` leaves `dirBlocks` unchanged, and a ref newly put into `dirBlocks` is not in `nonDirBlocks` (a stale cached non-directory can end up in both caches, as in app.js; that the caches stay disjoint needs `Coherent`, see `CheckKeepsCoherent`) |
| Blocks.CheckKeepsCoherent | app.js:56-86 | a check keeps the graph well formed, the two caches disjoint and only directories in `dirBlocks` |
| Blocks.PinLoopKeepsCoherent | app.js:34-37 | the pin loop keeps the same invariant |
| Blocks.PinLoopStopsAtThrow | app.js:34-37 | once a check throws, the later pins are never checked |
| Blocks.StepReplays | app.js:56-86 | the graph calls a check makes are what its new caches replay for that ref, and the ref is settled afterwards; a settled ref stays settled and replays the same calls; which non-CID refs are known non-directories does not change |
| Blocks.PinLoopPreserves | app.js:34-37 | a run of the pin loop keeps every known non-directory, keeps settled refs settled with the same replay, and does not change which non-CID refs are known non-directories |
| Blocks.FirstThrow | app.js:57-61 | the index of the first pin whose check throws (not a known non-directory and not a CID): that pin throws and none before it does; the number of pins when none throws |
| Blocks.PinLoopThrows | app.js:34-37 | the loop throws exactly when some pin is not a CID and not a known non-directory at the start |
| Blocks.PinLoopSettles | app.js:34-37 | every pin the loop went through, before the one that threw, is settled at the end |
| Blocks.PinLoopReplays | app.js:34-37 | the graph a run leaves is the old graph plus the replay, from the final caches, of every pin the loop went through |
| Blocks.FirstThrowAgrees | app.js:57-61 | where a run throws depends only on which non-CID refs are known non-directories |
| Blocks.PinLoopIdempotent | app.js:34-37 | running the pin loop a second time over the same pins, with the same answers from the node, leaves the graph exactly as the first run left it |
| IpfsManager.App.constructor | app.js:11-24 | the graph starts empty, the caches are what storage held, the log is empty with index 1, no pin count and no sources |
| IpfsManager.App.Log | app.js:47-53 | `log(m)` updates `log` and `logIndex` as `Logged` says and adds `m` to the history, touching nothing else |
| IpfsManager.App.CheckDirectory | app.js:56-86 | `checkDirectory(ref)` leaves the graph and caches as `Blocks.CheckDirectory` says, logs its messages, reports whether it threw, and keeps the class invariant |
| IpfsManager.App.AddDirectory | app.js:71-75 | the directory node and the `forEach` loop over the links make exactly the graph calls `DirectoryOps` lists |
| IpfsManager.App.CheckPins | app.js:34-37 | the `for` loop over the pins leaves the store and the log as `PinLoop` says, and stops at the first check that throws |
| IpfsManager.App.ComponentDidMount | app.js:27-45 | logs `reading all pinned refs`; on a failed listing stops there; otherwise does what `ReadRefs` says |
| IpfsManager.App.ReadRefs | app.js:30-44 | logs the pin count, sets `npins`, runs the pin loop, and unless a check threw logs `finished reading refs` and sets `sources` to the sources of the final graph |
| IpfsManager.App.FinishReading | app.js:39-44 | logs `finished reading refs` and sets `sources` to the graph's sources, changing no cache and no node |

## Left out

- Rendering (`App.render`, `Tree`, the top-level `render`, app.js:88-139) is not modelled, nor are the node and edge counts it shows.
- The IPFS calls `ipfs.pin.ls` and `ipfs.object.get` are parameters. They are deterministic within one pass. `FailedFetchIsRetried` uses two different answers for two passes.
- `localStorage`/`sessionStorage` persistence is not modelled, nor the JSON round-trips of the caches (app.js:11-12, 78, 81). The caches are in-memory sets and maps. The constructor takes their stored contents as arguments. A storage write that fails (a full quota) is caught by the same `catch`; the in-memory caches were already updated, so the model is unaffected.
- CID parsing by the `cids` library is a function from ref to codec.
- JavaScript object lookup is modelled as set and map membership. `nonDirBlocks[ref]` and `dirBlocks[ref]` on names that the plain object inherits (`constructor`, `toString`) are therefore not modelled; only non-CID refs could hit these.
- An object record whose fields are malformed (`links` missing) is not modelled. It throws inside the `try` and is caught. The model has only a fetch that fails as a whole.
- graphlib internals beyond the simple-graph semantics are not modelled. graphlib keeps nodes in insertion order, which is also the order of `sources()`. Its ordering of integer-like keys is not modelled.
- `async`/`await`, and React's `setState` updaters and batching, are not modelled. State updates are applied in program order, which is the order React applies the queued updaters in. When a check throws, the rejected promise of `componentDidMount` is modelled as a normal return, with `completed` false.
- `console.error` (app.js:84) is not modelled.
- The text of log lines is not modelled: a log entry holds a `Message` value and its index.
- PinLoopIdempotent: a second run over a superset of the pins, or with different answers from the node, is not covered. The claim is for the same pins and the same answers.
- IpfsManager.App.ComponentDidMount: the method's contract does not repeat the store invariant. That it is kept follows from its contract together with `Blocks.PinLoopKeepsCoherent`.
