# go-callflow-vis flow engine in Dafny

This project models the flow engine of go-callflow-vis. The engine takes a Go
call graph and an ordered list of *layers*. Each layer is a list of
*entities*, and each entity is a pattern over function names, signatures and
call sites. The engine:

- keeps only the functions that connect adjacent layers;
- records one witness path (the *example path*) for every (start, end) pair
  of adjacent layers;
- finds functions that break lexical-scope consistency along those paths;
- splices the call edges around those functions and repeats until no new
  ones appear;
- finally prunes example paths whose ends do not carry on into the next
  layer.

The model is organised by source package:

| module (file) | models |
|---|---|
| `Wrappers` (wrappers.dfy) | `Option` and `Result` |
| `Strs` (strs.dfy) | the `strings` functions used: `HasPrefix`, `HasSuffix`, `Contains`, `ReplaceAll` |
| `IR` (ir.dfy) | the node table as an arena `map<string, Node>` keyed by function address, edges as `(caller, site, callee)` address triples, edge identity, and the node-table functions that specify `AddEdge`, the swap-remove edge deletion, `DeleteNode` and `GetFilteredCallgraph` |
| `Graph` (callgraph.dfy) | the `Callgraph` class updated in place, each method proved against its `IR` function |
| `Util` (util.dfy) | `GetFuncSimpleName`, `GetSiteSimpleName`, `Escape`, `GetSimpleEdgeForPath` |
| `Modes` (mode.dfy) | `Item.Match`, `Mode.Match`, `Set.Match` |
| `Config` (config.dfy) | entity getters, `IsCheckIn`/`IsCheckOut`, `ShouldNodePass`, `ShouldNodeSanityPass`, `ShouldInPass`, `ShouldOutPass`, `Validate` |
| `Search` (search.dfy) | the two containment BFS searches, the first-discovery example-path BFS, `findReachableNodesIR`, `GetStartAndEndFromExamplePath` |
| `Chains` (chain.dfy) | `checkCallEdgeChain` |
| `Entities` (entity.dfy) | the memoised entity caches (`NodeSet`, `InNodeSet`, `OutNodeSet`, `ExamplePath`): a `Cache` value with one function per operation, and the `Entity` class whose methods are proved against them |
| `Layers` (layer.dfy) | the `Layer` class: unions over entities, `ResetLayer`, memoised `GetExamplePath` |
| `Skips` (skip.dfy) | the node-table function that specifies `skipNodeIR`'s splice and its properties |
| `Flows` (flow.dfy) | the `Flow` class: `NewFlow`, `Generate`, `findAllBipartite`, `skipNodesIR`/`skipNodeIR`, `GetMinNodeSet`, `UpdateMinGraph` |

Pointers become strings:

- A `*ir.Node` is named by its function address (`Func.Addr`), which is the
  node table's key.
- The symmetric-indexing invariant is the predicate `IR.GraphOK`: every key
  is its node's address, no node lists two edges of one identity, and an edge
  in a node's out list is in the callee's in list (and the other way round).
- An edge's identity (`Edge.String`) is the triple `IR.Key`.

Go's regular-expression engine is a parameter `rx` that the model never
interprets. Go's map iteration order becomes an arbitrary choice (`:|`), and
no property depends on it.

`UpdateInSiteNodeSetWithNodeSet` and `UpdateOutSiteNodeSetWithNodeSet` are
called by `findAllBipartite` (flow/algo.go:73,78,118) but defined nowhere.
They are modelled as `UpdateInNodeSetWithNodeSet` and
`UpdateOutNodeSetWithNodeSet` (flow/flow.go:779-815).

## Model

| member | source | states |
|---|---|---|
| IR.SkipEdgesShareKey | ir/ir.go:530-550 | two edges between the same pair whose site addresses contain `->Skip(` have one identity, with site part `Skip()` |
| IR.Node.Add | ir/ir.go:385-405 | `AddIn`/`AddOut`: the index gains the edge's identity; an edge already indexed leaves the node unchanged, otherwise it is appended; the other list, function and tags are untouched; distinct identities stay distinct |
| IR.AddIdempotent | ir/ir.go:385-405 | adding the same edge twice equals adding it once |
| IR.Node.AddTag | ir/ir.go:349-354 | the tag is present afterwards, every other tag keeps its status, edges and function are unchanged |
| IR.Node.ResetTags | ir/ir.go:345-347 | no tag remains; edges and function are unchanged |
| IR.FirstIndex | ir/ir.go:460-471 | the index of the first edge with the given identity, or -1 when none has it |
| IR.SwapRemoveFirstSpec | ir/ir.go:460-491 | swap-remove of the first match: when an edge matches the length drops by one and exactly that one occurrence leaves the multiset; otherwise the list is unchanged |
| IR.SwapMultiset | ir/ir.go:465-468 | overwriting slot i with the last edge and truncating removes exactly one copy of the i-th edge |
| IR.SwapRemoveMember | ir/ir.go:460-491 | in a list of distinct identities, swap-removing an edge's identity drops that edge and keeps every other |
| IR.TrimFunc | ir/ir.go:214-251 | the filtered copy's function keeps name, address and signature, and its parent is copied one level deep with the grandparent dropped |
| IR.FilterEdgesSpec | ir/ir.go:252-307 | an edge survives filtering iff its far end is in the table and its name passes the filter; distinct identities stay distinct |
| IR.FilteredListSpec | ir/ir.go:252-307 | a node of the filtered graph lists exactly its original edges whose far end passes the filter |
| IR.FilteredSpec | ir/ir.go:180-308 | the filtered graph keeps exactly the nodes with a non-empty key whose name passes, and it is well formed again |
| IR.FilteredShrinks | ir/ir.go:180-308 | the filtered graph's keys are original keys, functions agree after trimming, ids agree, and every kept edge was an original edge |
| IR.RemoveEdge | ir/ir.go:460-491 | removing one edge from its holder's list leaves the key set unchanged |
| IR.RemoveEdgesSpec | ir/ir.go:453-491 | removing a list of distinct, listed edges one by one deletes exactly those edges from their holders and changes nothing else |
| IR.DeleteSide | ir/ir.go:453-478 | `DeleteIns`/`DeleteOuts` keep the key set |
| IR.DeleteInsSpec | ir/ir.go:453-458 | after `DeleteIns` the node's in list is empty and every caller has lost exactly its edges to the node |
| IR.DeleteInPlaceSpec | ir/ir.go:51-56 | the in-place branch: the key is gone, the rest is well formed, and every neighbour has lost exactly the edges touching the node |
| IR.ISqrt | ir/ir.go:44 | the integer floor square root: `r*r <= n < (r+1)*(r+1)` |
| IR.DeleteRebuildSpec | ir/ir.go:41-50 | the rebuild branch keeps exactly the nodes whose name differs from the deleted node's name, well formed |
| IR.DeleteInPlaceShrinks | ir/ir.go:51-56 | the in-place branch removes exactly the one key and keeps the graph well formed |
| IR.DeleteNodeSpec | ir/ir.go:41-57 | both branches: the key is gone, no edge touches it, the graph stays well formed; the in-place branch removes only that key, the rebuild keeps exactly the nodes of a different name |
| IR.AddEdgeSpec | ir/ir.go:18-31 | `AddEdge` keeps the graph well formed and its keys; nothing changes when an endpoint is missing; otherwise both lists hold the edge's identity, appended only when it was new; nodes other than the two endpoints are unchanged |
| IR.AddEdgeIdempotent | ir/ir.go:18-31 | adding an edge twice equals adding it once |
| IR.AddEdgeIndexes | ir/ir.go:374-405 | with both endpoints present, the callee's in index and the caller's out index hold the new identity |
| IR.AddEdgeNoop | ir/ir.go:24-30 | an identity already indexed on both sides leaves the table unchanged |
| Graph.Callgraph.AddEdge | ir/ir.go:18-31 | the node table becomes `AddEdgeNodes` of the old one, the root is kept, and the invariant is preserved |
| Graph.Callgraph.RemoveFirstMatch | ir/ir.go:460-491 | `removeOutEdge`/`removeInEdge` turn the table into `RemoveEdge` of the old one |
| Graph.Callgraph.DeleteSide | ir/ir.go:453-491 | `DeleteIns`/`DeleteOuts` turn the table into `DeleteSide` of the old one |
| Graph.Callgraph.DeleteNode | ir/ir.go:41-57 | the table becomes `DeleteNodeNodes` of the old one, the root follows the branch taken, and a well-formed graph stays well formed, loses the key and keeps no edge touching it |
| Graph.FilterList | ir/ir.go:252-307 | the edge-filtering loop computes `FilterEdges` |
| Graph.FilterNodes | ir/ir.go:214-307 | the node-building loops compute `FilteredNodes` |
| Graph.GetFilteredCallgraph | ir/ir.go:180-308 | a fresh graph whose table is `FilteredNodes` of the source (the source is not modified), well formed when the source is |
| Strs.RemoveAllShrinks | util/util.go:14-26 | removing every occurrence of a pattern never makes a string longer |
| Strs.ReplaceAbsent | util/util.go:14-26 | replacing a pattern that does not occur leaves the string unchanged |
| Util.SimpleName | util/util.go:14-26 | `GetFuncSimpleName`/`GetSiteSimpleName` never lengthen the name and leave it unchanged when the prefix is empty or absent |
| Util.EscapeLength | util/util.go:28-32 | escaped length is the input length plus the number of `\` plus the number of `"` |
| Util.EscapePlain | util/util.go:28-32 | `Escape` is the identity on strings with neither `\` nor `"` |
| Util.EscapeRoundTrip | util/util.go:28-32 | unescaping the escaped string gives back the input |
| Util.QuoteAfterBackslash | util/util.go:28-32 | doubling backslashes first and then escaping quotes equals escaping character by character |
| Util.GetSimpleEdgeForPath | util/util.go:58-69 | none for an empty path; the very edge for a one-edge path; otherwise first caller to last callee with site name `<first>->...-><last>` |
| Modes.ExcludeNegates | mode/mode.go:56-64 | `Exclude` negates the item's result |
| Modes.DegenerateItem | mode/mode.go:56-85 | an item with empty content or an unknown type matches exactly when it is excluded |
| Modes.ItemTypes | mode/mode.go:65-82 | an empty type behaves as `equal`; prefix, suffix and contain are the string tests; regexp defers to the oracle |
| Modes.AnyItemSpec | mode/mode.go:34-40 | the OR fold holds iff some item matches |
| Modes.AllItemsSpec | mode/mode.go:42-47 | the AND fold holds iff every item matches |
| Modes.ModeMatch | mode/mode.go:24-48 | no items: false; one item: that item's match; two or more with OR == AND: false; OR: some item; AND: every item |
| Modes.SetMatch | mode/mode.go:89-96 | true iff some mode of the set matches, so the empty set is false |
| Config.Getters | config/config.go:46-86 | every getter answers nil on a nil entity and the field otherwise |
| Config.NodeChecksReject | config/config.go:88-124 | an empty name, an empty signature or an entity with no constraint makes both node checks fail |
| Config.ShouldNodePassSplits | config/config.go:115-160 | `ShouldNodePass` is `ShouldNodeSanityPass` plus, when checking in, some in edge passing `ShouldInPass` and, when checking out, some out edge passing `ShouldOutPass` |
| Config.Mirror | config/config.go:32-44 | swapping the in and out constraints swaps `IsCheckIn` and `IsCheckOut` |
| Config.MirrorInvolution | config/config.go:32-44 | mirroring twice gives back the entity |
| Config.OutPassIsMirroredInPass | config/config.go:162-202 | `ShouldOutPass` on an edge is `ShouldInPass` of the mirrored entity on the reversed edge |
| Config.FirstEmptyLayer | config/config.go:224-228 | the first layer from `from` with no entities, or none when every layer has one |
| Config.Validate | config/config.go:217-230 | error iff the configuration is nil, has fewer than 2 layers, or has a layer with no entities; the nil and too-few cases are reported as such |
| Search.SearchReachable | flow/algo.go:299-377 | both BFS searches: the seeds are visited, and a node is visited iff a path in the given direction from a seed reaches it through allowed nodes (an empty contain set allows all) |
| Search.FindExamplePath | flow/algo.go:266-297 | every key is a destination other than the source with a valid example path (non-empty, chained, starting at the source, callees in the contain set, no destination before the end), and every such destination is a key |
| Search.PathChains | flow/algo.go:266-297 | an example path starts at the source, ends at its key, consecutive edges chain, and every edge is listed in its caller's out list |
| Search.ReversePath | flow/algo.go:299-337 | a forward path reversed is a backward path over in edges in a well-formed graph |
| Search.ReachSetSpec | flow/algo.go:299-377 | `ReachSet`, what a search must return, holds a node iff some seed reaches it |
| Search.ContainedSpec | flow/algo.go:252-256 | a node is kept iff a start reaches it walking to callees through nodes that an end reaches walking to callers inside the inner set |
| Search.ExamplePaths | flow/algo.go:257-262 | one row per start with a non-empty row, whose ends are exactly the destinations connected to the start, each with a valid example path |
| Search.FindReachableNodes | flow/algo.go:252-264 | the contain set is exactly `Contained`: the nodes a start reaches walking to callees through nodes an end reaches walking to callers inside the inner set; the starts are in it; the rows are those of `ExamplePaths`; in a well-formed graph without an inner set, no connected pair is lost and every start-to-end path stays inside the contain set |
| Search.StartsAndEnds | flow/flow.go:466-481 | none for none; otherwise the starts are exactly the keys with a non-empty path and the ends are exactly the destinations of non-empty paths |
| Search.StartsAndEndsOfSearch | flow/flow.go:466-481 | on a search result the starts are exactly its keys and the ends are ends |
| Chains.ChainMembers | flow/algo.go:220-235 | the function chain holds exactly the callers and callees on the path, and is at most twice its length |
| Chains.BuildChain | flow/algo.go:220-235 | the chain-building loop computes `FuncChain` |
| Chains.CheckParents | flow/algo.go:236-249 | passes iff every chain function after the first has its parent equal to the first function's parent or an earlier function; on failure the issue is the predecessor of the first violation |
| Chains.CheckCallEdgeChain | flow/algo.go:215-250 | `(false, nil)` on an empty path; otherwise passes iff `CheckParents` does on the path's chain, reporting the predecessor of the first violation |
| Chains.IssueInGraph | flow/algo.go:244-247 | the reported issue function is a node of the graph |
| Entities.Cache.FillSide | flow/flow.go:689-723 | once filled, a checked side has a cached set |
| Entities.GetNodeSetMemo | flow/flow.go:632-647 | an empty cache answers the entity's node set, a filled cache answers its value unchanged, and a second call returns the first answer |
| Entities.TrimNodeSetShrinks | flow/flow.go:649-655 | `TrimNodeSet` leaves the node set's old value intersected with the argument, so it never grows |
| Entities.TrimSideSpec | flow/flow.go:657-777 | trimming a checked side leaves exactly the filled side intersected with the argument and rebuilds the node set from it; on an unchecked side the side is untouched and the node set becomes the filled node set intersected with the argument |
| Entities.UncheckedSideIsEmpty | flow/flow.go:689-815 | on an unchecked side the update returns an empty set and leaves the cache alone, and the all-node-set getter answers the node set |
| Entities.GetAllMemo | flow/flow.go:689-733 | after `Get*AllNodeSet`, the read-only getter answers the same set |
| Entities.UntrimmedGetAll | flow/flow.go:689-723 | on caches only ever filled from the graph, `GetInAllNodeSet`/`GetOutAllNodeSet` answer what they answer on nil caches, and the caches stay only filled |
| Entities.NodesFromSideSpec | flow/flow.go:735-777 | a node is rebuilt from a side iff some edge from a side member reaches it, passes the edge check and the node passes the sanity check |
| Entities.RederiveKeepsNodes | flow/flow.go:735-815 | deriving the side from the node set and then the node set from the side loses no node |
| Entities.OperationsKeepSane | flow/flow.go:611-815 | every cache operation, and adding any example-path map, keeps every cached node passing `ShouldNodeSanityPass` |
| Entities.MergePathsSpec | flow/flow.go:618-630 | merging example paths keeps every start of either map, the added map's paths win, and other pairs keep theirs |
| Entities.SweepShrinks | flow/algo.go:110-122 | the backward sweep's entity step leaves a node set and an in set no larger than before |
| Entities.Intersect | flow/flow.go:649-655 | the deleting loop computes the intersection |
| Entities.CollectNodeSet | flow/flow.go:632-647 | the scan computes the entity's node set |
| Entities.CollectImage | flow/flow.go:735-815 | the edge-walking loops compute the image of a set |
| Entities.MergeInto | flow/flow.go:618-630 | the merging loops compute `MergePaths` |
| Entities.Entity.GetNodeSet | flow/flow.go:632-647 | the cache and answer become those of `Cache.GetNodeSet` |
| Entities.Entity.TrimNodeSet | flow/flow.go:649-655 | the cache becomes `Cache.TrimNodeSet` of the old one |
| Entities.Entity.UpdateSideWithNodeSet | flow/flow.go:779-815 | the cache and answer become those of `Cache.UpdateSideWithNodeSet` |
| Entities.Entity.UpdateNodeSetWithSide | flow/flow.go:735-777 | the cache becomes `Cache.UpdateNodeSetWithSide` of the old one |
| Entities.Entity.TrimSide | flow/flow.go:657-687 | `TrimInNodeSet`/`TrimOutNodeSet`: the cache becomes `Cache.TrimSide` of the old one |
| Entities.Entity.GetAllNodeSet | flow/flow.go:689-723 | the cache and answer become those of `Cache.GetAll` |
| Entities.Entity.ResetEntityData | flow/flow.go:611-616 | all four caches are cleared |
| Entities.Entity.Sweep | flow/algo.go:110-122 | the cache becomes `Cache.Sweep` of the old one |
| Entities.Entity.AddExamplePath | flow/flow.go:618-630 | the cached example paths become the merge of the old ones and the argument |
| Layers.MergeAllKeys | flow/flow.go:437-457 | the merged layer map holds a start iff some entity's map does |
| Layers.MergeAllPairs | flow/flow.go:437-457 | a pair is merged iff some entity holds it, with the path of the last entity holding it |
| Layers.FilterEndsSpec | flow/algo.go:125-139 | the sweep's filter keeps exactly the pairs whose end is in the next layer's in set, with their paths, and leaves no start without an end |
| Layers.UntrimmedAnswer | flow/flow.go:483-520 | on only-filled entity caches a layer answers what its patterns select (`ClearedAnswer`), and filling keeps them only filled |
| Layers.ClearedAnswerOf | flow/flow.go:483-520 | from nil caches a layer answers exactly the nodes its patterns select on that side |
| Layers.Layer.ApplyAll | flow/algo.go:65-143 | every entity's cache becomes the operation applied to its old cache, so the layer's caches become `ApplyEach` of the old ones |
| Layers.Layer.ResetLayer | flow/flow.go:429-435 | the layer's node set and example path are nil and every entity is cleared |
| Layers.Layer.GetAllNodeSet | flow/flow.go:483-520 | every entity fills its side, so the caches become `FilledAll` of the old ones; the answer is the union of the entities' answers (`AnswerOf` the old caches), which the read-only union then also answers |
| Layers.Layer.GetAllOnlyRead | flow/flow.go:496-533 | the union of what the entities' caches hold, without filling them |
| Layers.Layer.GetExamplePath | flow/flow.go:437-457 | a cached map is returned unchanged; otherwise the entities' maps merged in order are returned and cached |
| Skips.PairsSpec | flow/algo.go:184-208 | the pairs visited are exactly every (in edge, out edge) of the node |
| Skips.SpliceAllOK | flow/algo.go:184-208 | adding merged edges keeps the graph well formed |
| Skips.SpliceAllKeeps | flow/algo.go:184-208 | adding merged edges removes no edge |
| Skips.SpliceAllOnly | flow/algo.go:184-208 | every edge after splicing is an old edge or the merged edge of a pair that qualifies |
| Skips.SpliceNodeOK | flow/algo.go:155-213 | the splice-and-delete of one node leaves a well-formed graph without that key and adds no key |
| Skips.SpliceNodeAdds | flow/algo.go:184-208 | for each qualifying pair (an endpoint is an issue function, or the callee's parent name is the caller's name), the edge named `<in>->Skip(<node>)-><out>` is indexed on both sides |
| Skips.SpliceNodeOnly | flow/algo.go:184-208 | every edge after the splice was there before or is the merged edge of a qualifying pair |
| Skips.SplicedStep | flow/algo.go:155-213 | splicing out one flagged node of a well-formed graph and then running more splices is one run of splices (`Spliced`) |
| Skips.SplicedTrans | flow/algo.go:148-153 | two runs of splices in a row are one run, so the repeated `skipNodeIR` calls of `skipNodesIR` compose |
| Flows.CollectIssues | flow/algo.go:56-63 | no issue is found iff every non-empty example path passes the chain check; issues are graph nodes |
| Flows.SearchedBetween | flow/algo.go:252-264 | the rows a search records are example paths of the unrestricted graph from their start to an end, with no empty row |
| Flows.SearchBetween | flow/algo.go:252-264 | `findReachableNodesIR` as the forward pass calls it: starts are exactly the keys, rows are non-empty and hold exactly the ends connected inside the contain set, each with an example path, and in a well-formed graph every start-to-end example path's pair is recorded |
| Flows.SubPathsBetween | flow/algo.go:125-137 | pairs kept from example paths between starts and ends are still such paths, over fewer starts |
| Flows.FilterExamplePath | flow/algo.go:125-139 | the filtering loops compute `FilterEnds` |
| Flows.FilterOptSpec | flow/algo.go:125-137 | the sweep's filter of a layer's example paths keeps some of its pairs with their paths and leaves every row non-empty and ending in the kept set |
| Flows.SweptStep | flow/algo.go:108-143 | one step of the backward sweep (sweep layer `i`, filter layer `i - 1` to layer `i`'s in set, trim its out caches to the starts left) takes the exact sweep state `SweptAbove` from the steps above `i` to step `i` done |
| Flows.SweptPaths | flow/algo.go:108-144 | after the whole sweep every layer's example paths keep some of their pairs, and each layer's but the last two's end in the in set the next layer holds |
| Flows.CollectNames | flow/flow.go:101-117 | the names are exactly the names of the set's nodes |
| Flows.MinGraphKeeps | flow/flow.go:101-117 | filtering by the names of a set keeps a well-formed graph, keeps exactly the non-empty keys whose function name is the name of some node of the set, and so every node of the set |
| Flows.MinSetSpec | flow/algo.go:16-37 | a node is in the minimal node set iff, for some adjacent pair of layers, a start reaches it walking to callees through nodes that an end reaches walking to callers |
| Flows.MinSetAppend | flow/algo.go:24-34 | searching one more adjacent pair adds exactly its contain set to the minimal node set |
| Flows.MinSetStep | flow/algo.go:24-34 | the loop state of `GetMinNodeSet` (the set is `MinSet` of the pairs searched, holds their starts, covers their paths) survives one more pair searched |
| Flows.ContainCovers | flow/algo.go:16-37 | the contain set of a search holds every node on any path from a start to an end |
| Flows.CoversFiltered | flow/flow.go:101-117 | the name-filtered graph still holds every node on any start-to-end path |
| Flows.Flow.constructor | flow/flow.go:16-58 | a flow with no snapshot, no issue functions, not generated |
| Flows.Flow.ResetLayers | flow/flow.go:95-99 | every layer and every entity is cleared |
| Flows.Flow.ClearedUntrimmed | flow/flow.go:95-99 | nil layer caches are only-filled caches and nil from the first layer on |
| Flows.Flow.Reset | flow/flow.go:90-93 | the issue functions are forgotten and the layers cleared |
| Flows.Flow.SaveSnapshot | flow/flow.go:81-88 | the snapshot is the current graph |
| Flows.Flow.RestoreSnapshot | flow/algo.go:12-14 | the graph is a fresh copy of the snapshot |
| Flows.Flow.SpliceRow | flow/algo.go:185-207 | one in edge's row of pairs is spliced: the table becomes `SpliceAll` of the old one, and the flag says whether some pair merged |
| Flows.Flow.SpliceOut | flow/algo.go:171-212 | the table becomes `SpliceNode` of the old one, and the flag says whether some pair merged |
| Flows.Flow.SkipNodeIR | flow/algo.go:155-213 | found and skipped agree; a well-formed graph stays well formed with no new key; when nothing is skipped no issue function remains; a skip makes the graph strictly smaller; the new graph is the old one with flagged nodes spliced out one at a time (`Spliced`) |
| Flows.Flow.SkipNodesIR | flow/algo.go:148-153 | afterwards no node is an issue function, the graph is well formed, gained no key, and is the old one with flagged nodes spliced out one at a time |
| Flows.Flow.FillPair | flow/algo.go:51-52 | `GetOutAllNodeSet` on layer `i` and `GetInAllNodeSet` on layer `i + 1`: the answers are `AnswerOf` the old caches, the caches become `FilledAll` of the old ones, and later layers are untouched |
| Flows.Flow.SearchPair | flow/algo.go:51-55 | the search from layer `i`'s out nodes to layer `i + 1`'s in nodes, as answered from the old caches: its result is what `SearchBetween` promises, and the caches become filled |
| Flows.Flow.NarrowPair | flow/algo.go:64-80 | the out caches of layer `i` are trimmed to the starts found and the in caches of layer `i + 1` to the ends found, each refreshed on its other side only at the first and last pair (`TrimmedAll`) |
| Flows.Flow.ForwardStep | flow/algo.go:51-80 | layer `i`'s example paths are the search result from its out nodes to the next layer's in nodes, answered from the caches it found (`SearchedPaths`: rows non-empty, ends exactly the connected ends, each an example path, none lost); no issue iff every path passes the chain check; both layers' caches become filled then trimmed to the found starts and ends (`TrimmedAll`) |
| Flows.Flow.StepAnswers | flow/algo.go:51-52 | the sets step `i` of the forward pass searches between: the ends are what the next layer's patterns select; the first starts are what the first layer's select; later starts are the out nodes of a layer whose in caches were trimmed to the previous step's ends (`OutAfterInTrim`) |
| Flows.Flow.SearchedSoFarStep | flow/algo.go:47-81 | the record of the forward pass's searches (`SearchedSoFar`) survives one more step |
| Flows.Flow.PathsSoFarStep | flow/algo.go:47-81 | the forward pass's loop state over the example paths (all set and non-empty, issues empty iff all pass the chain check, issues are nodes, searches recorded) survives one more step |
| Flows.Flow.PassStep | flow/algo.go:47-80 | one iteration of the forward pass keeps its loop state: the example paths so far, the searches recorded, later layers nil, and the next layer's in caches trimmed to the ends just found |
| Flows.Flow.ForwardPass | flow/algo.go:46-81 | every layer but the last has non-empty example paths; no issue iff all pass the chain check; issues are graph nodes; step `m` searched from the starts and to the ends `StepSearched` pins (from the layers' patterns and the previous step's ends) and recorded exactly the connected pairs with example paths; so every layer's paths are example paths of the graph ending in the next layer's in nodes and the first layer's start in its out nodes (`Anchored`) |
| Flows.Flow.PassedAnchored | flow/algo.go:46-81 | a finished forward pass leaves every layer but the last with example paths of the graph ending in what the next layer's patterns select, and the first layer's starting in what its own patterns select |
| Flows.Flow.CheckedPass | flow/algo.go:46-82 | the forward pass as `findAllBipartite` uses it: the issues are graph nodes, and a clean pass leaves chain-checked, anchored example paths |
| Flows.Flow.FilterStep | flow/algo.go:125-143 | layer `i - 1`'s example paths become exactly `FilterOpt` of the old ones by layer `i`'s in set, its caches become the old ones trimmed on the out side to the starts left, and layer `i`'s caches are unchanged |
| Flows.Flow.SweepStep | flow/algo.go:108-143 | layer `i`'s caches become the swept old ones, layer `i - 1`'s paths and caches become what `FilterStep` gives, and every other layer's paths and caches are unchanged |
| Flows.Flow.SweptStepAt | flow/algo.go:108-143 | one loop iteration of the backward sweep takes the exact sweep state `SweptAbove` from `i` to `i - 1` |
| Flows.Flow.SweepFirst | flow/algo.go:108-123 | the last iteration sweeps layer 0 and completes the exact sweep state |
| Flows.Flow.SweepDown | flow/algo.go:108-144 | the whole loop of the backward sweep leaves the exact state `SweptAbove` at -1 relative to the state before it |
| Flows.Flow.BackwardSweep | flow/algo.go:108-144 | each layer below the last-but-one ends with its paths exactly the old ones filtered by the in set the next layer finally holds, and its caches the old ones trimmed on the out side to the starts left and then swept; the last-but-one layer keeps its paths and has its caches swept; the last layer is unchanged; so paths only lose pairs and end in the next layer's in set |
| Flows.Flow.SweptFinal | flow/algo.go:108-144 | the exact sweep state, read off layer by layer as `BackwardSweep` states it |
| Flows.Flow.FlagIssues | flow/algo.go:82-92 | the issue functions grow by the new issues, and the snapshot keys not yet flagged strictly shrink |
| Flows.Flow.RestoreAndSkip | flow/algo.go:99-106 | the graph is a fresh well-formed graph whose keys are snapshot keys other than the issue functions, and it is the snapshot with flagged nodes spliced out one at a time; the layers are cleared |
| Flows.Flow.FinishSweep | flow/algo.go:108-145 | after a clean pass on the restored graph the backward sweep leaves the flow generated: chain-checked, non-empty, anchored example paths that end in the next layer's in set |
| Flows.Flow.FindAllBipartite | flow/algo.go:39-146 | error iff fewer than 2 layers, leaving graph and issues alone; otherwise the issue functions only grow and the flow ends generated: every layer but the last has non-empty example paths that pass the chain check, are example paths of the graph ending in the next layer's in nodes, start (in the first layer) in the first layer's out nodes, and (for all layers but the last two) end in the in set the next layer kept |
| Flows.Flow.AfterPass | flow/algo.go:82-146 | after a pass that reported issues (or, with none, that left the paths anchored and passing), the issue functions only grow and the flow ends generated, as `FindAllBipartite` states; flagged issues restart the search on the spliced graph, a clean pass on an unrestored graph restarts it on the restored and spliced graph, and a clean pass on a restored graph runs the backward sweep |
| Flows.Flow.PrintAndFind | flow/flow.go:124-125 | with the layer caches cleared first (what `PrintOriginalFlow` leaves behind), error iff fewer than 2 layers, and otherwise the flow ends generated |
| Flows.Flow.Generate | flow/flow.go:119-144 | a completed flow returns at once and nothing changes; otherwise the layers are cleared first, error iff fewer than 2 layers (then reset, not complete), and on success complete and generated as `FindAllBipartite` states |
| Flows.Flow.GetMinNodeSet | flow/algo.go:16-37 | error iff fewer than 2 layers; otherwise the start and end sets searched are exactly what the layers' patterns select on the out and in sides, and the result is exactly `MinSet` of them: it holds every start set and every node on a start-to-end path, and the layers are reset |
| Flows.Flow.MinPair | flow/algo.go:28-29 | the sets pair `i` of `GetMinNodeSet` searches between are exactly what the patterns of layers `i` and `i + 1` select, and later caches stay only filled |
| Flows.Flow.ExtendMin | flow/algo.go:30-33 | the search of one more pair keeps the loop state of `GetMinNodeSet` |
| Flows.Flow.MinPairs | flow/algo.go:24-34 | the loop of `GetMinNodeSet`: one start and end set per adjacent pair, each what the patterns select, and the result is `MinSet` of them, holding the starts and covering their paths |
| Flows.Flow.UpdateMinGraph | flow/flow.go:101-117 | error iff fewer than 2 layers; otherwise the start and end sets are what the layers' patterns select, and the new graph is fresh and well formed with keys exactly the old non-empty keys named like some node of `MinSet` of them, so it keeps every start and every node on a start-to-end path |
| Flows.NewFlow | flow/flow.go:16-58 | errors for a nil config, a config without layers, a nil graph, and a single layer; otherwise a fresh flow over fresh layers and entities built from the configuration |

## Left out

- Regular-expression matching (`MatchTypeRegexp`, mode/mode.go:77-82) is an uninterpreted parameter `rx`.
- `Item.Match` writing the default type back into the item (mode/mode.go:66) is not modelled; the default is folded into the match.
- The Fury serialisation of the snapshot (flow/flow.go:81-88, flow/algo.go:12-14) is a saved copy of the node table; its marshal and unmarshal errors cannot happen in the model.
- Nil receivers (`f == nil`, `e == nil` on Flow and Layer methods) are not modelled; nil entities and configurations are, as `Option`.
- `ConvertToIR` (ir/ir.go:59-178) is not part of this model: the input graph is a node table that satisfies `GraphOK`.
- `NewFlow` requires the input graph to satisfy `GraphOK`; the Go code assumes the same of `ConvertToIR`'s output.
- `LoadConfig`, `WriteToFile`, `GetHash`, logging, rendering (`GetDot`, `GetRenderGraph`, `SavePaths`, `SaveDot`, `PrintFlow`, `Entity.String`, `ToRenderNode`/`ToRenderEdge`) are I/O or formatting.
- `PrintOriginalFlow` (flow/flow.go:136-144): its logging is left out; its effect on the flow, filling every layer's caches and then resetting them, is modelled as the `ResetLayers` call at the start of `Generate`.
- `GetInToOutEdgeSet` only feeds rendering and is not modelled.
- `CheckFlowEntities` (flow/flow.go:70-79) only logs a warning; the model just resets the layers.
- The `fastMode` flag is stored but never read, and the `layerList` bookkeeping in both BFS routines is built but never read; neither is modelled.
- `ResetSearched`, `SetSearched` and the per-node scratch path (`SetPath`/`ClearPath`) are replaced by a local visited set and a local map of paths inside the BFS, so no scratch state exists on nodes afterwards.
- `UpdateHumanReadableMap` and `AddEnhancementIn`/`AddEnhancementOut` are not called by the engine and are not modelled.
- `Edge.ReadableString` is modelled as a function of the node table (`IR.ReadableString`) with no property of its own; `Edge.String` is modelled as the identity triple `IR.Key` rather than as text.
- `Layer.GetStartAndEndFromExamplePath` (flow/flow.go:459-464) is `Search.StartsAndEnds` of the layer's example path and has no separate member.
- `Layer.nodeSet` is only ever reset and is not otherwise used by the engine.
- `Node.inMap`/`Node.outMap` (ir/ir.go:374-404) are modelled as always equal to the identities of the current edge lists. In Go they are rebuilt only when empty, and `removeInEdge`/`removeOutEdge` (ir/ir.go:460-491) do not remove the swap-removed edge's entry, so a later `AddIn`/`AddOut` of that identity is skipped there while the model adds it.
- The `callgraphIR == nil` early returns of the entity and layer getters (flow/flow.go:438-440, 484-486, 633, 690, 780 and the like) are not modelled: the flow always holds a graph.
- Pointer identity is function-address identity: two distinct `*ir.Node` values with one address cannot be told apart in the model.
- `AddExamplePath` stores its argument's inner maps by reference in Go; the model copies values, so later deletions through an alias are not modelled.
- Graph.Callgraph.DeleteNode: in the rebuild branch Go returns a new graph object; the model overwrites the receiver's root and table with the rebuilt ones.
- The layered BFS loops of the containment searches are modelled as a FIFO queue search; the visited set is the same.
- Go map iteration order: which issue node `skipNodeIR` skips first, and the order in which rows are visited, is an arbitrary choice; determinism is not claimed.
- The floating-point `math.Sqrt` in `DeleteNode` is the integer floor square root `IR.ISqrt`; both branches are proved to meet the same "node gone" postcondition.
- Flows.CollectIssues: states when the issue set is empty and that issues are graph nodes, not which functions it holds.
- Flows.Flow.BackwardSweep: as in the source, the last pair of layers is not filtered by the sweep, so the end-containment property covers the pairs `(m - 1, m)` with `1 <= m < |layers| - 1` only.
- Flows.Flow.ForwardPass: the start set of a step after the first is pinned as the out nodes of a layer whose in caches were trimmed to the previous step's ends (`OutAfterInTrim`), not reduced further to a closed form over the patterns.
