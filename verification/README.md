# Verification model of Soren's server and dashboard core

Soren runs a team of coding agents behind a FastAPI server and a React dashboard. This project models the
parts of it where state, order and concurrency matter, and proves what they keep. `dafny verify dfyconfig.toml`
checks everything.

**Tasks and their dependency graph.** `Graph` is one theory of paths, acyclicity and longest paths; `Rows` counts
the dependency rows a task still waits for. `Tasks` gives every API call as a step on two tables (tasks with
parents, dependency edges) and proves what any run keeps. `TaskService.TaskTables` is the code over those tables:
depth-first cycle check, edge insert and delete, recursive delete with cascade, ready tasks, execution order.
`TopologicalSort` is the FIFO Kahn loop and what its order means; `LevelOrder` compares it with its own
documentation; `Schedule` says that working off ready tasks finishes everything. `TaskTree` nests visible tasks
under their parents. `LayoutDepth` and `Layout` are the dashboard's own Kahn pass, its layers and its coordinates.
A query without ORDER BY may return its rows in any order, so every statement holds for every order.

**Protocols between await points and transactions.** `Secrets` (many processes, one vault row, legacy files),
`Sockets` (the websocket manager) and `Tmux` (keys sent to windows) are state machines whose actions are what
happens between two suspension points; the results hold for every interleaving.

**Buffers that refine something simpler.** `Activities` (capped feed), `Terminal` (PTY bridge), `Thoughts`
(duplicate window), `Events` (tool events linked to messages), `TextLines` and `Journal` (text written and read
back) and `Clusters` (titles grouped by similarity).

Where the code does less than its comments, documentation or purpose say, the code is followed. Each of these has
the exact condition under which it holds and an input on which it does not:

| promise | holds exactly when | fails on |
|---|---|---|
| `topological_sort` is alphabetical within a level | `LevelOrder.AlphabeticalIffAgree` | `LevelOrder.NotAlphabetical` |
| its tail holds cycle members | `LevelOrder.TailIsCyclesIff` | `LevelOrder.TailHoldsMore` |
| `layoutDag` places unprocessed nodes one layer past the deepest resolved one | `LayoutDepth.UnresolvedJustPastIff` | `LayoutDepth.UnresolvedNotJustPast` |
| `total` of `get_task_tree` is the size of the tree | `TaskTree.TotalIsTreeSizeIff` | `TaskTree.HiddenParent` |
| the `ready` flag of a dependency report is that of the list of ready tasks | `TaskService.TaskTables.GetDependencies` | `TaskService.DoneReportedReady` |
| the vault starts from the legacy files | `Secrets.RowStartsFromLegacy` | `Secrets.SaltReadFailureLosesVault` |
| every send types its own text | `Tmux.OwnTextIff` | `Tmux.LongSendsCross` |
| `addActivity` keeps the newest activities, newest first | `Activities.AddedIsNewestIff` | `Activities.LateAddOutOfOrder` |
| equal dedup keys mean the same agent's same thought | `Thoughts.SameKeyIffSameThought` (never for one agent), `Thoughts.KeysTellApartIff` | `Thoughts.ToolResultLost`, `Thoughts.ColonNamesCollide` |
| a journal header is read back as written | `Journal.HeaderRoundTrip` | `Journal.TitleDoesNotComeBack` |
| journal entries are read back as written | `Journal.JournalUnchangedIff` | `Journal.BodyDoesNotComeBack`, `Journal.TrailingBlankIsLost`, `Journal.BlankBodyIsLost` |
| they are, but for trailing blanks | `Journal.JournalRoundTripIff` | `Journal.BodyDoesNotComeBack` |
| filtering by project keeps exactly that project's entries | `Journal.FilterKeepsProjectIff` | `Journal.ForeignNoteIsKept`, `Journal.ForeignTimeIsKept` |
| title clusters do not depend on the order of entries | `Clusters.OrderFreeIffTransitive` | `Clusters.SimilarityNotTransitive` |

Some results rest on ids that are not used twice. Client ids are drawn per connection (src/server/routes/agents.py:518);
`Sockets.ReuseOverlaps` shows what they prevent. Event ids are the first eight characters of a random id;
`Events.ReusedIdForgets` shows what a repeated one does.

## Model

| member | source | states |
|---|---|---|
| Graph.AddEdgeAcyclic | src/server/services/task_dag.py:69-97 | Adding an edge to an acyclic table keeps it acyclic exactly when its target does not already wait for its source: the reachability test is the right guard |
| Graph.StuckSetWaitsForCycle | src/server/services/task_dag.py:216-217 | In a set where every member waits for a member, every member waits, directly or not, for a real cycle |
| Graph.LevelsAreDepths | src/frontend/src/lib/dag-layout.ts:38-57 | Numbers that lie above all dependencies and one above some dependency are longest-path lengths, and nothing so numbered waits for a cycle |
| Graph.DepthUnique | src/frontend/src/lib/dag-layout.ts:38-57 | A node has at most one longest-path depth |
| Rows.WaitingRelease | src/server/services/task_dag.py:208-214 | Popping u lowers every task's count of unprocessed dependency rows by exactly the number of times it occurs among u's dependents |
| Rows.WaitingZero | src/server/services/task_dag.py:205-214 | The count is zero exactly when every dependency is processed |
| TopologicalSort.CountRows | src/server/services/task_dag.py:195-203 | The first loop gives each task the number of its unprocessed dependency rows and lists its dependents |
| TopologicalSort.ReleaseDependents | src/server/services/task_dag.py:211-214 | One pop restores the loop invariant: in-degrees equal unprocessed dependencies, and the queue extends the Kahn order |
| TopologicalSort.Order | src/server/services/task_dag.py:195-218 | The two loops return the topological sort: every task once, the tasks not waiting for a cycle in Kahn order, the others by id |
| TopologicalSort.LoopEnd | src/server/services/task_dag.py:208-217 | When the queue runs dry, the emitted tasks are exactly those that do not wait for a cycle |
| TopologicalSort.SortIsUnique | src/server/services/task_dag.py:180-218 | There is only one such sort, so the result does not depend on the order of rows or of set iteration |
| Collections.TextLessIs | src/server/services/task_dag.py:205-217 | Ids are compared by their first differing character, a proper prefix first |
| TopologicalSort.OrderLevels | src/server/services/task_dag.py:205-214 | A Kahn order carries a level numbering that never falls along it |
| TopologicalSort.EmittedHaveDepth | src/server/services/task_dag.py:205-214 | Every emitted task has a longest-path depth |
| TopologicalSort.DepthNeverFalls | src/server/services/task_dag.py:205-214 | Longest-path depth never falls along the emitted tasks, so levels are contiguous |
| TopologicalSort.RootsFirst | src/server/services/task_dag.py:170-171 | Tasks without active dependencies come first, sorted by id |
| TopologicalSort.DependenciesFirst | src/server/services/task_dag.py:167-170 | Every active dependency of an emitted task precedes it |
| TopologicalSort.TailEmptyIffAcyclic | src/server/services/task_dag.py:216-217 | The tail is empty exactly when the restricted graph is acyclic |
| TopologicalSort.TailWaitsForTail | src/server/services/task_dag.py:216-217 | Every tail task has a dependency in the tail |
| LevelOrder.AlphabeticalIffAgree | src/server/services/task_dag.py:170-171 | Levels are alphabetical, as documented, exactly when the last dependencies one level down agree with the alphabet |
| LevelOrder.NotAlphabetical | src/server/services/task_dag.py:205-214 | Concrete graph whose only sort is a, b, z, c, with c and z on one level |
| LevelOrder.TailIs | src/server/services/task_dag.py:216-217 | The tail is exactly the tasks that wait, directly or not, for a cycle |
| LevelOrder.TailIsCyclesIff | src/server/services/task_dag.py:216-217 | It holds cycle members only, as commented, exactly when nobody else waits for one |
| LevelOrder.TailHoldsMore | src/server/services/task_dag.py:216-217 | A graph whose sort is all tail, with a task on no cycle in it |
| Tasks.StepKeepsConsistent | src/server/services/task_dag.py:79-107 | Each create, update, delete, add and remove keeps the edge table acyclic with existing endpoints and the parents a forest without orphans |
| Tasks.RunKeepsConsistent | src/server/routes/tasks.py:442-663 | Every run of calls does |
| Tasks.EmptyConsistent | src/server/services/task_dag.py:25-42 | The empty tables satisfy the invariant |
| Tasks.AddRefusesExactlyCycles | src/server/services/task_dag.py:79-97 | Between existing tasks, an edge is in the table afterwards exactly when it closes no cycle |
| Tasks.DeleteKeepsForest | src/server/routes/tasks.py:613-632 | Removing a whole subtree leaves no task with a missing parent |
| Tasks.SubtreeSplit | src/server/routes/tasks.py:621-629 | A task is below another exactly when it is that task or below one of its children |
| Tasks.SiblingsDisjoint | src/server/routes/tasks.py:621-629 | Siblings' subtrees are disjoint, so no deletion is counted twice |
| Tasks.ChildSmaller | src/server/routes/tasks.py:621-629 | A child's subtree is strictly smaller: the recursion ends |
| Tasks.SubtreeUntouched | src/server/routes/tasks.py:621-629 | Deleting one child's subtree leaves the next child's as it was |
| TaskService.TaskTables.CanReach | src/server/services/task_dag.py:51-66 | The depth-first search terminates and answers true exactly when a path exists, on any edge table |
| TaskService.TaskTables.DetectCycle | src/server/services/task_dag.py:69-74 | True exactly when the new edge would make the table cyclic |
| TaskService.TaskTables.AddDependency | src/server/services/task_dag.py:79-97 | New state, and which error is raised in which case |
| TaskService.TaskTables.RemoveDependency | src/server/services/task_dag.py:100-107 | The edge is gone, nothing else changed, and the answer says whether it was there |
| TaskService.TaskTables.GetDependencies | src/server/routes/tasks.py:666-702 | Exactly the dependencies, the unfinished ones and the dependents, each once; the flag agrees with the list of ready tasks exactly when the task is startable or some dependency is unfinished |
| TaskService.DoneReportedReady | src/server/routes/tasks.py:684-702 | A single finished task is reported ready and is not in the list of ready tasks |
| TaskService.TaskTables.CreateTask | src/server/routes/tasks.py:442-496 | New row, assigned when somebody is named and pending otherwise, with medium priority and source system where none is given; unknown priorities and sources and missing parents are refused and change nothing |
| TaskService.TaskTables.UpdateTask | src/server/routes/tasks.py:499-581 | Given fields change, the others stay; assigning a pending task advances it unless a status is given; values outside the lists and missing tasks are refused |
| TaskService.TaskTables.DeleteRecursive | src/server/routes/tasks.py:621-629 | Removes exactly the descendants and the edges that touch them, and returns their number |
| TaskService.TaskTables.DeleteTask | src/server/routes/tasks.py:613-632 | The same for the endpoint, with the missing task refused |
| TaskService.TaskTables.GetReadyTasks | src/server/services/task_dag.py:130-164 | Exactly the pending and assigned tasks of the project all of whose dependencies are done or verified, each once |
| TaskService.TaskTables.TopologicalSort | src/server/services/task_dag.py:167-218 | The topological sort of exactly the project's tasks that are neither done, verified nor failed, over exactly the edges between them |
| TaskService.TaskTables.GetFullDag | src/server/services/task_dag.py:221-262 | Exactly the project's tasks and exactly the edges with an end among them, each once |
| TaskService.TaskTables.GetExecutionOrder | src/server/routes/tasks.py:364-397 | The same sort, each task with all its dependencies, each once, and marked ready exactly when it is |
| TaskService.EachStatusSorted | src/server/services/task_dag.py:175-193 | Of nine tasks, one of each status, exactly backlog, pending, assigned, in-progress, review and blocked are sorted |
| TaskService.EachStatusReady | src/server/services/task_dag.py:138-164 | Of nine tasks, one of each status, with any edges, one is ready exactly when it is the pending or the assigned one and its dependencies among the nine are the done or the verified one |
| TaskService.AnyRun | src/server/routes/tasks.py:442-663 | The code, driven by any list of calls, ends in the state the steps give, and that state is consistent |
| Schedule.StaysReady | src/server/services/task_dag.py:130-164 | A ready task stays ready, whatever other task is finished |
| Schedule.SomethingReady | src/server/services/task_dag.py:130-164 | While unfinished work remains and all of it is startable, something is ready |
| Schedule.ExecutionCounts | src/server/services/task_dag.py:130-164 | Finishing ready tasks in any order uses up the unfinished tasks one by one |
| Schedule.MaximalExecutionFinishes | src/server/services/task_dag.py:130-164 | Such an execution can stop exactly when it has as many steps as there were unfinished tasks, and then all are finished |
| Schedule.MaximalExecutionIff | src/server/services/task_dag.py:130-164 | With any statuses, an execution cannot go on exactly when it has finished all unfinished tasks that wait, through unfinished tasks, for no unstartable one; it takes no other task and none twice |
| Schedule.ExecutionDoes | src/server/services/task_dag.py:130-164 | What is left for others to do after any execution |
| Schedule.FinishKeepsDoable | src/server/services/task_dag.py:130-164 | Finishing a ready task changes nobody else's chance to be finished |
| Schedule.ExecutionRespectsEdges | src/server/services/task_dag.py:130-164 | A dependency was finished before the execution or earlier in it |
| Schedule.ReadyInTurn | src/server/services/task_dag.py:167-218 | Worked off in sorted order, a task is ready in its turn exactly when it is startable and its dependencies outside the active tasks are finished |
| Schedule.OrderIsExecutable | src/server/routes/tasks.py:364-397 | With all unfinished work startable, the order is an execution that finishes everything |
| Schedule.ReadyAreRoots | src/server/routes/tasks.py:364-397 | Tasks that are ready now head the order |
| TaskTree.GetTaskTree | src/server/routes/tasks.py:235-282 | The nested answer holds, each once, exactly the tasks that, like all their ancestors, are in the project and not done unless done ones are asked for, each under its parent; `total` counts the tasks that are so themselves |
| TaskTree.AttachAll | src/server/routes/tasks.py:270-280 | The recursion gives every node exactly the rows that name it as parent |
| TaskTree.TreeIds | src/server/routes/tasks.py:270-276 | A nested tree lists its root's whole subtree without repetition |
| TaskTree.BelowRootsIffShown | src/server/routes/tasks.py:278-280 | A visible task hangs below a visible top-level task exactly when no ancestor is hidden |
| TaskTree.TreeShowsExactly | src/server/routes/tasks.py:260-282 | Any answer nested this way shows exactly those tasks, each once |
| TaskTree.FullTreeShowsAll | src/server/routes/tasks.py:235-282 | With done tasks included and no project filter every task appears exactly once |
| TaskTree.TotalIsTreeSizeIff | src/server/routes/tasks.py:282-282 | `total` is the size of the tree exactly when no visible task hangs under a hidden one |
| TaskTree.HiddenParent | src/server/routes/tasks.py:245-282 | A pending task under a done one counts in `total` while the tree is empty |
| LayoutDepth.Adjacency | src/frontend/src/lib/dag-layout.ts:27-36 | The incoming and outgoing lists are the rows' ends, in row order |
| LayoutDepth.RelaxDependents | src/frontend/src/lib/dag-layout.ts:51-56 | The inner loop keeps: popped nodes' edges are relaxed, remaining in-degrees count unpopped dependencies |
| LayoutDepth.PassEnd | src/frontend/src/lib/dag-layout.ts:46-57 | When the queue is empty the popped nodes are exactly those not waiting for a cycle, at their longest-path depth; others that were touched lie one above a popped dependency |
| LayoutDepth.PlaceUnprocessed | src/frontend/src/lib/dag-layout.ts:58-66 | Nodes without a depth go one past the deepest depth given |
| LayoutDepth.Depths | src/frontend/src/lib/dag-layout.ts:38-66 | For any input: resolved nodes have their longest-path depth, the others what PassEnd and PlaceUnprocessed say; `processed` is the number of resolved nodes |
| LayoutDepth.ProcessedAllIffAcyclic | src/frontend/src/lib/dag-layout.ts:58-61 | `processed` reaches the node count exactly on acyclic input |
| LayoutDepth.AcyclicDepthsExact | src/frontend/src/lib/dag-layout.ts:38-57 | On acyclic input every node lies at its longest-path depth, whatever the queue order |
| LayoutDepth.ResolvedDepBelow | src/frontend/src/lib/dag-layout.ts:51-52 | A dependent of a resolved node lies in a later layer, cyclic input or not |
| LayoutDepth.UnresolvedJustPastIff | src/frontend/src/lib/dag-layout.ts:58-66 | The comment's promise for unresolved nodes holds exactly when none of them has a resolved dependency, or each waits for a deepest resolved node |
| LayoutDepth.UnresolvedNotJustPast | src/frontend/src/lib/dag-layout.ts:58-66 | On two nodes waiting for each other, one of them also for a root, the depths are 0, 1 and 2 |
| Layout.GroupByLayer | src/frontend/src/lib/dag-layout.ts:68-73 | Each layer holds exactly its nodes in node order |
| Layout.LayerOffsets | src/frontend/src/lib/dag-layout.ts:75-88 | Each layer starts at the total room of all layers before it |
| Layout.PlaceLayer | src/frontend/src/lib/dag-layout.ts:91-106 | A layer's nodes stand row by row and sub-column by sub-column from that start |
| Layout.LayoutDag | src/frontend/src/lib/dag-layout.ts:19-116 | Every node once, in its place for the depths above; drawn edges are those with both ends among the nodes |
| Layout.NoOverlap | src/frontend/src/lib/dag-layout.ts:75-106 | For any graph, two nodes are a sub-column apart sideways or a row apart vertically |
| Layout.LaterLayerRight | src/frontend/src/lib/dag-layout.ts:75-88 | A node of a later layer is right of every node of an earlier one by a full column, however far that one wraps |
| Layout.FirstLayerAtZero | src/frontend/src/lib/dag-layout.ts:82-88 | The first layer that has nodes starts at 0, 0 |
| Layout.NextLayerExactly | src/frontend/src/lib/dag-layout.ts:82-88 | The leftmost node of a non-empty layer lies exactly 260 right of the rightmost node of the non-empty layer before it |
| Layout.EightToASubColumn | src/frontend/src/lib/dag-layout.ts:91-106 | The next node of a layer heads a sub-column 220 further right exactly when 8 divides its number; otherwise it stands 90 below the one before it |
| Layout.TwoRoots | src/frontend/src/lib/dag-layout.ts:75-106 | Two roots and a node waiting for both lie at (0, 0), (0, 90) and (260, 0) |
| Layout.EdgesGoRight | src/frontend/src/lib/dag-layout.ts:75-106 | Every edge out of a resolved node goes right by at least a column; on acyclic input that is every edge |
| Layout.DrawnEdges | src/server/services/task_dag.py:239-246 | From what the API sends, the client draws exactly the edges with both ends in the project |
| Secrets.Linearizable | src/server/services/secrets.py:168-229 | In every interleaving with crashes and failing file reads, the vault is the logged operations replayed on what it started from, each answer is the one its place in that order gives, and a finished operation is logged once; it started from the legacy contents exactly when no usable salt was lost |
| Secrets.AnswersFromLog | src/server/services/secrets.py:168-229 | In every run, from the log alone: a get answers the value of the last accepted set of its name before it, nothing if an accepted delete came later, and what the vault started with if neither came; a list answers exactly the names so present, a delete whether the name was; an operation is refused exactly when its passphrase does not open what the log left; and in the end the vault holds exactly that |
| Secrets.RealTimeOrder | src/server/services/secrets.py:168-229 | An operation that had finished before another started comes before it in that order |
| Secrets.LostStaysLost | src/server/services/secrets.py:81-90 | Once a usable salt is lost, every operation with any passphrase is refused and the vault stays unreadable |
| Secrets.SaltReadFailureLosesVault | src/server/services/secrets.py:81-100 | One failing read of the salt file does that to any vault, whatever other salt is drawn |
| Secrets.ReadableLegacySurvives | src/server/services/secrets.py:67-113 | When no file operation fails, every run works on the legacy contents: the vault that was sealed, if the salt file holds its salt and that is not empty, nothing if nothing was sealed, and otherwise bytes no passphrase opens |
| Secrets.InsertKeepsContentsIff | src/server/services/secrets.py:81-98 | The first insert keeps the stored contents exactly when its salt was read from the file or the blob does not open with that |
| Secrets.SaltNeverChanges | src/server/services/secrets.py:126-145 | Once there is a row its salt, and what the vault started from, stay the same over every run |
| Secrets.KeysShareTheSalt | src/server/services/secrets.py:157-160 | Every process that has a key derived it from the row's salt |
| Secrets.RowStartsFromLegacy | src/server/services/secrets.py:67-113 | The row was created with the legacy blob; it stands for the legacy contents exactly when the process that created it read a usable salt, or the blob does not open with that |
| Secrets.CommitMove | src/server/services/secrets.py:168-188 | A commit under the write lock keeps the invariant: its operation comes last in the log, and the vault is the log replayed |
| Secrets.InsertMove | src/server/services/secrets.py:93-100 | Whichever importer or salt creator comes first, the insert keeps the invariant; later ones are ignored |
| Secrets.StepKeepsInv | src/server/services/secrets.py:67-229 | Each step of any process, a start or a crash keeps the invariant |
| Secrets.RunKeepsInv | src/server/services/secrets.py:67-229 | So does every run |
| Sockets.DictionariesAgree | src/server/websocket/manager.py:33-55 | Connections and send locks always have the same clients |
| Sockets.OneSendPerConnection | src/server/websocket/manager.py:57-80 | At most one send is in flight per connection |
| Sockets.SendsAndDrops | src/server/websocket/manager.py:82-108 | Each fan-out sends at most once to each client of its snapshot, only to those, and drops a client only after its own send to it failed |
| Sockets.CompleteDelivers | src/server/websocket/manager.py:82-137 | A completed fan-out has delivered to every snapshot client that is still connected |
| Sockets.ConnectedAfter | src/server/websocket/manager.py:33-55 | Exactly which steps connect and disconnect a client |
| Sockets.TargetsAreMeant | src/server/websocket/manager.py:87-93 | Over every run, a fan-out's targets are exactly the clients connected when it took its snapshot, or of those the one it is meant for |
| Sockets.BroadcastReachesAll | src/server/websocket/manager.py:82-118 | In every run, a client connected when a broadcast took its snapshot and still connected when it is complete has been sent it successfully |
| Sockets.SingleSendReaches | src/server/websocket/manager.py:120-137 | So has the one client of a send to one client |
| Sockets.SentOnlyToMeant | src/server/websocket/manager.py:82-137 | Every send goes to a client that was connected at the snapshot, and of a send to one client only to that one |
| Sockets.NobodyIsStuck | src/server/websocket/manager.py:57-137 | In every reachable state, ids fresh or not, a fan-out that is not complete can take a step of its own, or waits for a lock whose holder can, or waits for disconnect_all, which can end |
| Sockets.RunKeepsHolders | src/server/websocket/manager.py:72-80 | Over every run, whoever holds a send lock is sending with it |
| Sockets.ReuseOverlaps | src/server/websocket/manager.py:33-37 | A concrete run with a reused client id has two sends in flight on one connection: ids must be fresh, as src/server/routes/agents.py:518 makes them |
| Sockets.StepKeepsInv | src/server/websocket/manager.py:33-137 | Each connect, disconnect, snapshot, lock, send, gather and prune step keeps the invariant |
| Sockets.RunKeepsInv | src/server/websocket/manager.py:33-137 | So does every run with fresh ids |
| Tmux.StreamsAreBlocks | src/server/services/tmux_service.py:108-200 | In every interleaving each window's key stream is whole blocks, at most one of them still open at the end |
| Tmux.ReturnsIffContiguous | src/server/services/tmux_service.py:122-151 | A short send returns normally exactly when its own text and Enter stand together in the stream |
| Tmux.EachKeyOnce | src/server/services/tmux_service.py:108-200 | In every run a call's Enter is sent once if it returned and never otherwise, an interrupt's Ctrl-C likewise, a short call's text at most once and once if it returned, an interrupt's never; all to the call's own window |
| Tmux.EnterSubmitsText | src/server/services/tmux_service.py:140-173 | Right before every Enter stands a text, for a short call its own |
| Tmux.SentAfterCheck | src/server/services/tmux_service.py:122-130 | In every run, a call that is past its check, or whose text was typed, found its window while it held the lock |
| Tmux.OwnTextIff | src/server/services/tmux_service.py:153-173 | In every run, all that was typed, pending or in a block, is the typing call's own text exactly when no other call's successful load came between a call's load and its successful paste |
| Tmux.PasteIsOwnIff | src/server/services/tmux_service.py:161-173 | A single paste is the call's own text exactly when nobody else loaded since its own load |
| Tmux.BufferIsLastLoad | src/server/services/tmux_service.py:161-166 | The paste buffer holds the text of the last successful load, and a call loads at most once |
| Tmux.LongSendsCross | src/server/services/tmux_service.py:153-173 | Without that, a concrete run types one call's text into another call's window |
| Tmux.StepKeepsInv | src/server/services/tmux_service.py:42-200 | Each step, failing commands and vanishing windows included, keeps the block invariant |
| Tmux.RunKeepsInv | src/server/services/tmux_service.py:42-200 | So does every run |
| Activities.FeedFromEmpty | src/frontend/src/stores/activityStore.ts:49-77 | After any batches in any order with any redelivery, the feed is the newest events of everything delivered, newest first, each once, up to the maximum |
| Activities.BatchesDisplayAll | src/frontend/src/stores/activityStore.ts:21-77 | Where no id is used for two, deliveries that differ in kind, agent or time are all shown while fewer than 500 are; a full feed leaves out only what is no newer than all it holds; no two that are shown agree in all three |
| Activities.NewestDisplaysAll | src/frontend/src/stores/activityStore.ts:21-77 | The same of any feed that is the newest of some deliveries |
| Activities.MergeKeepsIds | src/frontend/src/stores/activityStore.ts:51-67 | With any ids, a batch shows no id twice, and adds nothing whose id, or kind, agent and time, the feed held |
| Activities.AddedIs | src/frontend/src/stores/activityStore.ts:34-46 | A single activity whose id, or kind, agent and time, the feed holds changes nothing; any other is put in front, and the feed cut to 500 |
| Activities.FeedIsNewest | src/frontend/src/stores/activityStore.ts:49-77 | The same from any such feed |
| Activities.MergeKeepsNewest | src/frontend/src/stores/activityStore.ts:51-76 | One batch keeps this: what was evicted before is never missed |
| Activities.FullMeansNewer | src/frontend/src/stores/activityStore.ts:70-72 | A full feed contained in a merge bounds the merge's first places from below |
| Activities.NewestUnique | src/frontend/src/stores/activityStore.ts:49-77 | With one event per instant the feed shows the same events in the same places whatever the arrival order |
| Activities.AddOneIffNewest | src/frontend/src/stores/activityStore.ts:32-47 | Adding one does what a batch of one would exactly when it is a duplicate or the newest |
| Activities.AddedIsNewestIff | src/frontend/src/stores/activityStore.ts:32-47 | A single add keeps the feed the newest of everything delivered exactly then |
| Activities.MixedRunIsNewest | src/frontend/src/stores/activityStore.ts:32-77 | So does any mixture of single adds and batches in which every single add was a duplicate or the newest at its time |
| Activities.LateAddOutOfOrder | src/frontend/src/stores/activityStore.ts:44-46 | A late single add ends up in front of a newer activity, where a batch would not put it |
| Activities.ActivityStore.AddActivity | src/frontend/src/stores/activityStore.ts:32-47 | That, and from a feed of the newest delivered, the feed stays that exactly when the activity is a duplicate or no older than what is shown |
| Activities.ActivityStore.AddActivities | src/frontend/src/stores/activityStore.ts:49-77 | The deduplication loop and the merge keep ids apart and the feed the newest of everything delivered |
| Terminal.DrainConserves | src/server/routes/terminal.py:224-239 | However writes split up, what was written followed by what is left is what was buffered, short of an error |
| Terminal.DrainAmount | src/server/routes/terminal.py:224-239 | What is written is as much of the buffer as the successful writes before the first other one take; an error counts only when it comes before the buffer is empty |
| Terminal.DrainInTwo | src/server/routes/terminal.py:241-242 | Flushing in two goes is flushing once |
| Terminal.PtyBridge.OnReadable | src/server/routes/terminal.py:196-208 | One chunk or one EOF sentinel is appended, and the reader is detached exactly on the latter |
| Terminal.PtyBridge.Write | src/server/routes/terminal.py:218-222 | Input is accepted once, in order; a closed bridge or empty input changes nothing |
| Terminal.PtyBridge.Flush | src/server/routes/terminal.py:224-239 | Written bytes and buffer are what draining gives, and the writer is attached exactly while the buffer is non-empty |
| Terminal.PtyBridge.CloseNow | src/server/routes/terminal.py:262-280 | Both callbacks are detached, the buffers stay |
| Terminal.AnyUse | src/server/routes/terminal.py:196-280 | Over any events without a write error, bytes written followed by the buffer are all input up to the close, what is written is as much of that as each event's writes took, and the output queue has grown by exactly the non-empty chunks that were read, in order, up to the first EOF or close, then the EOF |
| Terminal.Handle | src/server/routes/terminal.py:196-280 | What one callback, write or close does to input, output and both attachments, and how many bytes it writes |
| Terminal.EofLast | src/server/routes/terminal.py:204-208 | An EOF sentinel can only be last in that output, and is there exactly when reading ended by EOF |
| Thoughts.CleanupInvisible | src/server/routes/thoughts.py:39-71 | From any state that forgot only expired entries, all answers are those of a cache that never forgets |
| Thoughts.AnswersAsIfNeverCleaned | src/server/routes/thoughts.py:39-71 | So the periodic cleanup cannot be observed, with a clock that never goes back |
| Thoughts.DuplicateIffRecent | src/server/routes/thoughts.py:62-71 | A request is a duplicate exactly when its key was last accepted less than the window ago, and then gets that id |
| Thoughts.AcceptedApart | src/server/routes/thoughts.py:62-71 | Two acceptances of one key are at least the window apart |
| Thoughts.SameKeyIffSameThought | src/server/routes/thoughts.py:24-36 | For any two names, equal keys mean the same agent and the same thought (type, content, tool name, input and response) exactly when neither name, with its colon, begins the other; so never for one agent |
| Thoughts.KeysTellApartIff | src/server/routes/thoughts.py:24-36 | Of the thoughts one agent may have, keys tell all apart exactly when the text fixes the rest |
| Thoughts.SameKeyIffSameText | src/server/routes/thoughts.py:34-36 | Equal keys mean the same agent and text, whatever the texts, exactly when the names are equal or neither begins the other |
| Thoughts.ToolResultLost | src/server/routes/thoughts.py:62-71 | Two different results of a tool, without content as .opencode/plugins/soren-bridge.ts:434-439 sends them, the second within the window: it is answered with the first one's id |
| Thoughts.SameKeyIff | src/server/routes/thoughts.py:34-36 | Two thoughts have equal keys exactly when one name, with its colon, begins the other and the texts differ by just the rest of it |
| Thoughts.ColonFreeNamesApart | src/server/routes/thoughts.py:34-36 | Different names without a colon never begin one another this way |
| Thoughts.ColonNamesCollide | src/server/routes/thoughts.py:34-36 | With a colon in a name, two agents can share a key |
| Thoughts.DedupCache.Receive | src/server/routes/thoughts.py:56-71 | Counter, lookup and memory; every hundredth request forgets exactly the entries 30 seconds old or older, no other request forgets any |
| Thoughts.DedupCache.ReceiveAll | src/server/routes/thoughts.py:39-71 | A whole run of the code answers as a cache that never forgets |
| Events.LinkedToFirst | src/server/services/conversation_store.py:454-488 | With fresh event ids, each row is linked to the message of the first later link of its agent if it is a tool event, and to nothing otherwise |
| Events.LinkNeverChanges | src/server/services/conversation_store.py:478-487 | A link never changes |
| Events.FirstLinkMonotone | src/server/services/conversation_store.py:478-487 | An earlier tool event of an agent is never linked later than a later one |
| Events.MessageEventsAreSegment | src/server/services/conversation_store.py:490-501 | With fresh message ids a message's events are exactly the agent's tool events since its previous link |
| Events.LinkCount | src/server/services/conversation_store.py:488-488 | The number returned is the number of events the message then has |
| Events.EventsOfMembers | src/server/services/conversation_store.py:490-501 | The events of a message are exactly the rows linked to it |
| Events.LinkedToFirstStop | src/server/routes/agent_events.py:125-197 | With each event handled as one step, a tool event is linked to its agent's first later Stop that stores a message, or stays unlinked |
| Events.EventStore.StoreEvent | src/server/services/conversation_store.py:431-452 | The row is there unlinked, one of the same id is gone, all others are as before; with a fresh id it is appended |
| Events.ReusedIdForgets | src/server/services/conversation_store.py:436-436 | A repeated id takes the first event's row and link away |
| Events.EventStore.LinkEventsToMessage | src/server/services/conversation_store.py:476-488 | Exactly the agent's tool events that had no message get this one, every other row stays, and the answer is how many they were |
| Events.EventStore.GetEventsByMessage | src/server/services/conversation_store.py:490-501 | Exactly the rows linked to the message, each as often as it is stored, by time |
| Journal.HeaderRoundTrip | src/server/services/journal.py:100-118 | A written header is read back as its title and project exactly when the title is stripped, non-empty and on one line, the project is on one line without a closing bracket, and an untagged title does not start with a tag |
| Journal.AfterTimeIs | src/server/services/journal.py:107-118 | A line has a time exactly when it is `## `, two digits, a colon, two digits, ` - ` and the rest |
| Journal.TagIs | src/server/services/journal.py:107-114 | The rest has a project exactly when it begins with that in brackets and a blank, not empty and without closing bracket |
| Journal.TagOf | src/server/services/journal.py:107-108 | A bracketed project is recognised exactly when it has no closing bracket |
| Journal.StrippedIs | src/server/services/journal.py:112-118 | Stripping removes the blanks at both ends and nothing else |
| Journal.JournalUnchangedIff | src/server/routes/journal.py:192-223 | For any entries, with any text in title, project, body and tags, reading the file gives back titles, projects and bodies line by line as given, in order, exactly when every header is one that reads back, no body line starts like an entry header or ends in blanks, and no body that was given is blank |
| Journal.GivenIsBody | src/server/services/journal.py:155-166 | What counts as given is the lines of the content and nothing else; with tags, the tags line first, and between them an empty line, unless the content is blank |
| Journal.OneTagsLine | src/server/services/journal.py:158-160 | Tags without line ends make one line, which names every tag in order, separated by a comma and a blank |
| Journal.KeptComeBack | src/server/routes/journal.py:192-223 | Entries that meet the condition are read with their title, project, and the lines of their content and tags, in order, and nothing else is read |
| Journal.JournalRoundTripIff | src/server/routes/journal.py:192-223 | The same up to blanks at the ends of body lines and blank bodies, exactly when headers read back and no body line starts like one |
| Journal.FileHeadings | src/server/routes/journal.py:203-220 | A file holds one heading per entry and one more for each other line of an entry that starts like one |
| Journal.ReadCounts | src/server/routes/journal.py:203-222 | The parser gives exactly one entry per heading, on any text |
| Journal.JournalRoundTrip | src/server/routes/journal.py:192-223 | So safe entries always come back up to such blanks |
| Journal.HeadingInBodyIsAnEntry | src/server/routes/journal.py:203-222 | A body line that starts like a header is read as an entry of its own |
| Journal.BodyDoesNotComeBack | src/server/routes/journal.py:203-222 | A concrete entry with such a body |
| Journal.TrailingBlankIsLost | src/server/routes/journal.py:218-219 | A concrete body that is read without its trailing blank |
| Journal.BlankBodyIsLost | src/server/services/journal.py:160-164 | A body of blanks is not written at all |
| Journal.TitleDoesNotComeBack | src/server/routes/journal.py:203-222 | No entry whose title has a line end comes back |
| Journal.FileAsLines | src/server/services/journal.py:166-169 | The text appended so far, read with any kind of line end, is the day header and for each entry an empty line and its lines |
| TextLines.LineEnds | src/server/routes/journal.py:203-204 | Reading turns each of the three line ends into one newline and leaves other characters |
| Journal.LinesOfSafe | src/server/services/journal.py:144-164 | With a header on one line those are the header and the body |
| Journal.FilterKeepsProjectIff | src/server/services/journal.py:204-222 | Filtering keeps the day header and exactly that project's entries, whole and in order, exactly when those hold no heading of another project and the others neither a day header nor a heading of this one |
| Journal.ForeignNoteIsKept | src/server/services/journal.py:214-217 | A concrete entry without a project whose body line is kept for every project |
| Journal.ForeignTimeIsKept | src/server/services/journal.py:107-108 | A concrete entry without a project whose body line, with a time in Arabic-Indic digits, is kept for another project |
| Journal.JournalFile.AddEntry | src/server/services/journal.py:121-171 | The file grows by an empty line, the header with time, project and title, and the tags and the content unless blank; a new file starts with the day header |
| Journal.JournalFile.CollectEntries | src/server/routes/journal.py:192-223 | The reading loop, on any text |
| Journal.JournalFile.FilteredBy | src/server/services/journal.py:204-222 | The filtering loop, on any text |
| Journal.WriteThenRead | src/server/routes/journal.py:192-223 | Appending any entries one by one and reading the file gives them back exactly under those conditions, as given or up to blanks; as given means title, project and the lines of content and tags |
| Clusters.SimilarIff | src/server/routes/journal.py:261-264 | The similarity threshold as a count of common words; it is symmetric, and holds of a non-empty set and itself |
| Clusters.HomeIsFirstMatch | src/server/routes/journal.py:356-362 | Every title goes to exactly one leader, the first one similar to it |
| Clusters.FirstMatchUnique | src/server/routes/journal.py:356-362 | No other grouping does that |
| Clusters.RecurringClusters | src/server/routes/journal.py:343-369 | The loop builds exactly one cluster per leader, holding the titles and dates of those that go to it, in order; they are those of exactly the entries with two words or more, no stop title and no non-issue title |
| Clusters.LifecycleClusters | src/server/routes/journal.py:460-488 | The second loop builds the same clusters and keeps each one's entries |
| Clusters.SameClusters | src/server/routes/journal.py:460-488 | Both loops, run on the same entries, agree cluster by cluster, though they filter in a different order |
| Clusters.CanonicalsApart | src/server/routes/journal.py:356-369 | Canonical titles are pairwise below one half |
| Clusters.ClusterShape | src/server/routes/journal.py:356-369 | A cluster starts with its canonical title, and all its titles are at least one half similar to it |
| Clusters.EveryTitleCounted | src/server/routes/journal.py:349-369 | Cluster sizes add up to the number of qualifying entries |
| Clusters.IssuesGrouped | src/server/routes/journal.py:343-369 | A cluster holds only titles and dates of entries with two words or more that are neither a stop title nor a non-issue title, and each such entry is in a cluster |
| Clusters.OrderMatters | src/server/routes/journal.py:356-369 | Of three titles, the middle one similar to both others, the order decides between one cluster and two |
| Clusters.OrderFreeIffTransitive | src/server/routes/journal.py:356-369 | Titles end up together in the same way for every order of the entries exactly when similarity is transitive on them |
| Clusters.SimilarityNotTransitive | src/server/routes/journal.py:261-264 | There are such titles |

## Left out

- SQL text, pragmas, schema migration, file I/O and aiofiles: tables are maps and sets of rows, transactions are steps.
- Random ids, uuids and clocks: ids are given by the caller, the create call refuses a used one; clocks are values that never go back.
- Titles, descriptions, tags, resources, remarks, due dates, timestamps and durations of tasks: nothing modelled depends on them; `created_at` order is therefore any order.
- Task list, statistics, reminders and blocker detection in src/server/routes/tasks.py: they would only add easy members.
- TaskService.TaskTables.AddDependency: each call is one step; two processes writing the table between read and insert are not modelled.
- Layout.LayoutDag: duplicate node ids are excluded, since nodes come from a primary key; React Flow node data and edge labels are not modelled.
- Secrets.Linearizable: encryption and key derivation are symbolic (a sealed vault opens with its own key only), random salts differ from the salt of an existing sealed legacy blob, and `updated_at` is not modelled.
- Secrets.RowStartsFromLegacy: a change of the legacy files by other programs is not modelled.
- Sockets.CompleteDelivers: cancellation, failures of accept and close, message text and the ping timer are not modelled; a ping is a fan-out.
- Tmux.StreamsAreBlocks: cancellation in mid-send, the delays and the temporary file are not modelled; windows appear and vanish at any time.
- Activities.FeedFromEmpty: `time` stands for the instant of a timestamp string; invalid dates, and two spellings of one instant, are not modelled; the fingerprint is a triple instead of a joined string.
- Terminal.AnyUse: after a write error the source drops its buffer; the ghost record starts over there, so conservation is stated between errors. Process start, resize, reaping, the websocket pumps and the terminal capacity count are not modelled; a successful write takes at least one byte.
- Thoughts.SameKeyIffSameThought: the hash is taken to be injective; the timestamp is not part of a thought; storing and broadcasting an accepted thought is not modelled.
- Events.LinkedToFirst: event ids are fresh there; a row that replaced another is not followed further.
- Events.EventStore.GetEventsByMessage: the source orders by the timestamp's text, which is the order of instants only when all timestamps have one offset and one precision; the model orders by instant.
- Events.EventStore.LinkEventsToMessage: the `since_event_id` variant is not modelled; the handler does not use it.
- Events.LinkedToFirstStop: whether a Stop stores a message (system and internal tags, duplicates of mailbox messages) is given with the event; status updates and compaction are not modelled.
- Journal.HeaderRoundTrip: the decimal digits of a time are those of Unicode 14, as in Python 3.11; later versions add a few.
- Journal.JournalUnchangedIff: one file, one scope and one day; line ends are compared as newlines, and all but the last entry are read with one more empty line; caching, team filtering, line numbers and search are not modelled.
- Clusters.RecurringClusters: splitting a title into words, the stop titles and the non-issue patterns are parameters; the final selection of clusters with two dates, its sorting and the matching of commits are not modelled.
- Debates, agents, projects, authentication, rendering and the small dashboard stores: presentation, I/O or easy members only.
