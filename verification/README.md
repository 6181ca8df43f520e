# Hot-reload profile classifier

This project is a Dafny model of the classifier in `DotnetWatchFail/Program.cs`. The classifier walks a build's project-reference graph breadth-first from its entry points and decides the build's hot-reload profile.

- If the first project whose capability scan ends on `WebAssembly` was preceded by a different project whose scan ended on `AspNetCore`, the profile is `BlazorHosted`.
- If that `WebAssembly` project had no such predecessor, the profile is `BlazorWebAssembly`.
- If the queue empties before any such project is found, the run ends without a profile (`Unknown`) and reports two diagnostics: the number of projects dequeued (`countProcessed`) and the largest queue length seen just after a dequeue (`maxQueueSize`).

The source has two copies of this loop:

- `InferHotReloadProfile` enqueues every reference it meets.
- `InferHotReloadProfileOptimized` enqueues a reference only when `visited.Add` succeeds.

## Modules

- `ProjectGraph` (`graph.dfy`): projects are indices into a `seq<Node>`. Each `Node` holds its capability items and its references. `ValidGraph` says that every reference and every entry point names a node.
- `Capabilities` (`capabilities.dfy`): the scan of one project's items. It stops at the first `AspNetCore` (the `break`) or the first `WebAssembly` (the `return`). The pure `FirstMatch` is the scan's specification; the loop `ScanCapabilities` is proved to compute it.
- `Traversal` (`traversal.dfy`): the loop as a state machine.
  - `State` holds the queue, the candidate host, `visited`, and the two counters. It also keeps three history fields that only the specification reads: the projects dequeued, the queue-length samples, and the references enqueued.
  - `Step` is one pass of the loop body.
  - `RunMemo` is the memoized loop. Its termination measure is the pair (identities not yet visited, queue length).
  - `RunNaive` is the naive loop under a dequeue budget.
- `TraversalProperties` (`properties.dfy`): what every state of a run keeps, and what a finished run reports (`Sound`).
  - `Consistent` has five parts:
    - `StateOk`: every reference, every queued project and every visited project names a node of the graph.
    - FIFO order: the entry points followed by the enqueued references equal the dequeued projects followed by the queue.
    - The counters match the histories.
    - The candidate host is the last dequeued `AspNetCore` project.
    - For memoized runs, `visited` is exactly the set of enqueued references, each enqueued once; for naive runs, `visited` stays empty.
  - `Reaching`: every enqueued reference is reachable from an entry point (`ProjectGraph.Reachable`, a path of references).
  - `Explored` holds between passes, and for a run that stops it holds for the projects dequeued before the stopping one (`ExploredBy`):
    - no dequeued project was a `WebAssembly` project;
    - every reference of every dequeued project has been enqueued;
    - for the naive loop, the enqueued references are exactly the references of the dequeued projects, in order (`RefsOf`);
    - for the memoized loop, they are exactly the references that `visited` had not yet accepted, in order (`MemoRefsOf`, built from `Traversal.Unseen`).
  - `Sampled`: the queue-length samples are `SamplesOf` the dequeued projects: each is the length right after its dequeue, that is the entry points plus what was enqueued for the earlier dequeues (`EnqueuedFor`), less the dequeues so far.
  - `Invariant` bundles `Consistent`, `Reaching`, `Explored` and `Sampled`.
- `RunProperties` (`runs.dfy`): whole-run guarantees of both classifiers.
- `HotReloadProfile` (`classifier.dfy`): the two source methods as Dafny methods, with a `seq` queue, a `set` for `visited`, and `while` loops. Each method is proved to return what `RunMemo` or `RunNaive` computes.
- `Scenarios` (`scenarios.dfy`): concrete graphs run to the end.

Capability evaluation, console output and timing are outside the classifier. The capability items and references of each project are inputs. Each method returns the profile and both counters instead of printing them; the source prints the counters only when the run ends with no profile.

Behaviours of the code worth noting:

- The memoized run does not put the entry points into `visited`. An entry point reached again through a reference is therefore processed a second time. On A → B → A the run performs 3 dequeues (`Scenarios.MemoizedCycleRevisitsEntry`).
- A project listing `AspNetCore` before `WebAssembly` stops its scan at `AspNetCore`. A single such project ends with no profile (`Scenarios.AspNetCoreFirstNeverClassifies`).
- The two classifiers can report different hosts on a graph without cycles. Under "last seen wins", the naive run can meet an earlier `AspNetCore` project again after a later one (`Scenarios.NaiveAndMemoizedDisagree`).
- No run ever reports an `AspNetCore`-only profile. Reaching an `AspNetCore` project only records a candidate host.

## Model

| member | source | states |
|---|---|---|
| Capabilities.TagOf | DotnetWatchFail/Program.cs:123-128 | no contract; defines what one capability item means to the scan: `AspNetCore`, `WebAssembly`, or ignored |
| Capabilities.FirstMatch | DotnetWatchFail/Program.cs:121-140 | no contract; defines what the scan of a project's items ends on |
| Capabilities.FirstMatchIsFirst | DotnetWatchFail/Program.cs:121-140 | the scan ends on `NoMatch` exactly when no item is `AspNetCore` or `WebAssembly`; otherwise it ends on the tag of the first such item, with every earlier item ignored |
| Capabilities.ScanCapabilities | DotnetWatchFail/Program.cs:121-140 | the `foreach` with its `break`/`return` ends on `FirstMatch` of the items, an item that is really present |
| ProjectGraph.Reachable | DotnetWatchFail/Program.cs:142-145 | no contract; defines reachability independently of the loops, as a path that follows `ProjectReferences` from an entry point |
| ProjectGraph.EntryReachable | DotnetWatchFail/Program.cs:104 | every entry point in the graph is reachable |
| ProjectGraph.ReferenceReachable | DotnetWatchFail/Program.cs:142-145 | a reference of a reachable project is reachable |
| ProjectGraph.ClosedHoldsReachable | DotnetWatchFail/Program.cs:142-145 | a set that holds the entry points and every reference of its own members holds every reachable project |
| Traversal.Init | DotnetWatchFail/Program.cs:159-165 | no contract; defines the start state: entry points queued, no candidate host, counters 0, nothing visited |
| Traversal.Dequeue | DotnetWatchFail/Program.cs:113-119 | no contract; defines the dequeue, the post-dequeue sample of the queue length, and the count |
| Traversal.Classify | DotnetWatchFail/Program.cs:128-138 | no contract; defines the profile at a `WebAssembly` project: `BlazorHosted` when a different candidate host exists, `BlazorWebAssembly` otherwise |
| Traversal.Step | DotnetWatchFail/Program.cs:113-145 | no contract; defines one pass of the loop body |
| Traversal.Expand | DotnetWatchFail/Program.cs:142-145 | no contract; defines the `foreach` over the references, by variant |
| Traversal.EnqueueAll | DotnetWatchFail/Program.cs:142-145 | no contract; defines the naive enqueue of every reference |
| Traversal.EnqueueNew | DotnetWatchFail/Program.cs:198-204 | no contract; defines the memoized enqueue, reference by reference |
| Traversal.AddIfNew | DotnetWatchFail/Program.cs:200-203 | no contract; defines `visited.Add` followed, on success, by `queue.Enqueue` |
| Traversal.RunNaive | DotnetWatchFail/Program.cs:111-147 | no contract; defines the naive loop under a dequeue budget |
| Traversal.RunMemo | DotnetWatchFail/Program.cs:167-206 | no contract; defines the memoized loop, which ends by the measure of `StepKeepsStateOk` |
| Traversal.MaxOfIsMaximum | DotnetWatchFail/Program.cs:118 | the running maximum bounds every sample, is 0 when there is no sample, and is one of the samples otherwise |
| Traversal.Unseen | DotnetWatchFail/Program.cs:198-204 | no contract; defines the references `visited.Add` accepts, in order |
| Traversal.EnqueueNewIsUnseen | DotnetWatchFail/Program.cs:198-204 | the memoized `foreach` appends exactly `Unseen` of the references to the queue and the enqueued history and adds it to `visited`; nothing else changes |
| Traversal.UnseenIsNew | DotnetWatchFail/Program.cs:200-203 | the accepted references are references not visited before, each once, and with what was visited they cover every reference |
| Traversal.EnqueueNewAddsUnvisited | DotnetWatchFail/Program.cs:198-204 | the memoized `foreach` keeps the old queue as a prefix and appends exactly the references that were not visited, in order, each at most once; afterwards every reference is visited; `visited` and the enqueued history grow by exactly the appended projects, and nothing else changes |
| Traversal.ExpandChangesFrontier | DotnetWatchFail/Program.cs:142-145 | enqueueing a project's references changes only the queue, `visited` and the enqueued history, and adds only those references; naive leaves `visited` alone; memoized only grows `visited`, and when it adds nothing to `visited` it adds nothing to the queue |
| Traversal.StepKeepsStateOk | DotnetWatchFail/Program.cs:167-206 | a pass that continues keeps every identity inside the graph; a memoized pass either visits a new project or shortens the queue, so the optimized loop ends |
| Traversal.StepEffect | DotnetWatchFail/Program.cs:113-145 | a pass stops exactly when the dequeued project's scan ends on `WebAssembly`, and then reports `Classify(host, project)`; otherwise `AspNetCore` overwrites the candidate host and no match keeps it; the count goes up by one, `maxQueueSize` takes the post-dequeue length into account, the rest of the queue stays in front, and the project's references follow (all of them naive, only unvisited ones memoized, after which all are visited) |
| Traversal.RunMemoContinues | DotnetWatchFail/Program.cs:167-206 | a memoized pass that continues leaves the run's final outcome unchanged |
| Traversal.RunMemoStops | DotnetWatchFail/Program.cs:184-195 | at a project whose scan ends on `WebAssembly` the memoized run ends with `Classify` of the candidate host and that project |
| Traversal.RunNaiveContinues | DotnetWatchFail/Program.cs:111-147 | a naive pass that continues leaves the run's outcome unchanged at one dequeue less of budget, and never touches `visited` |
| Traversal.RunNaiveStops | DotnetWatchFail/Program.cs:128-139 | at a project whose scan ends on `WebAssembly` the naive run ends with `Classify` of the candidate host and that project |
| TraversalProperties.LastAspNetCore | DotnetWatchFail/Program.cs:123-127 | no contract; defines the candidate host from the history: the last dequeued `AspNetCore` project |
| TraversalProperties.LastAspNetCoreNone | DotnetWatchFail/Program.cs:123-127 | there is no candidate host exactly when no dequeued project's scan ended on `AspNetCore` |
| TraversalProperties.LastAspNetCoreIsLast | DotnetWatchFail/Program.cs:123-127 | a candidate host is an `AspNetCore` project of the history with no `AspNetCore` project after it (last seen wins) |
| TraversalProperties.InitConsistent | DotnetWatchFail/Program.cs:159-165 | the start state satisfies `Invariant`: the invariant, `Reaching`, `Explored` and `Sampled` |
| TraversalProperties.DequeueConsistent | DotnetWatchFail/Program.cs:113-119 | dequeueing and sampling keeps FIFO order, the counters and the host invariant (the same holds for the copy of these lines in the optimized loop, Program.cs:169-175) |
| TraversalProperties.ExpandConsistent | DotnetWatchFail/Program.cs:198-204 | enqueueing references keeps the invariant; for the memoized loop `visited` stays equal to the duplicate-free enqueued history |
| TraversalProperties.StepConsistent | DotnetWatchFail/Program.cs:167-206 | one pass keeps the invariant; a pass that continues dequeued no `WebAssembly` project; a pass that stops did so at the first `WebAssembly` project, with the profile of the last `AspNetCore` project before it |
| TraversalProperties.StepEnqueues | DotnetWatchFail/Program.cs:142-145 | a pass records the dequeued project; a pass that stops enqueues nothing; a pass that continues keeps the enqueued history as a prefix, adds only references of the dequeued project, and afterwards every one of its references has been enqueued (naive: exactly its references, in order; memoized: exactly its unvisited references, in order) |
| TraversalProperties.StepReaching | DotnetWatchFail/Program.cs:142-145 | one pass enqueues only projects reachable from the entry points (the same holds for the copy of these lines in the optimized loop, Program.cs:198-204) |
| TraversalProperties.StepExplored | DotnetWatchFail/Program.cs:142-145 | a pass that continues keeps `Explored`: no dequeued `WebAssembly` project, every reference of every dequeued project enqueued, and the enqueued history equal to what the loop enqueues for the dequeued projects (all their references for naive, the unvisited ones for memoized) |
| TraversalProperties.EnqueuedFor | DotnetWatchFail/Program.cs:142-145 | no contract; defines what the loop of either variant enqueues while dequeueing a sequence of projects (the optimized loop's enqueue is Program.cs:198-204) |
| TraversalProperties.SamplesOf | DotnetWatchFail/Program.cs:113-118 | one sample per dequeue (the same holds for the copy of these lines in the optimized loop, Program.cs:169-174) |
| TraversalProperties.SamplesOfAt | DotnetWatchFail/Program.cs:113-118 | the i-th sample plus i + 1 is the number of entry points plus the length of what was enqueued for the first i dequeued projects (the same holds for the copy of these lines in the optimized loop, Program.cs:169-174) |
| TraversalProperties.StepSamples | DotnetWatchFail/Program.cs:118 | one pass appends the queue length right after its dequeue to the samples (the same holds for the copy of these lines in the optimized loop, Program.cs:174) |
| TraversalProperties.StepSampled | DotnetWatchFail/Program.cs:113-118 | a pass keeps `Sampled`: the samples stay `SamplesOf` the dequeued projects (the same holds for the copy of these lines in the optimized loop, Program.cs:169-174) |
| TraversalProperties.StepInvariant | DotnetWatchFail/Program.cs:111-147 | a pass that continues keeps `Invariant` (the same holds for the copy of these lines in the optimized loop, Program.cs:167-206) |
| TraversalProperties.NaiveContinueKeeps | DotnetWatchFail/Program.cs:111-147 | a naive pass that continues keeps `Invariant` and the run's result at one dequeue less of budget |
| TraversalProperties.NaiveEmptySound | DotnetWatchFail/Program.cs:111-148 | a naive run whose queue is empty is sound |
| TraversalProperties.NaiveStopSound | DotnetWatchFail/Program.cs:128-139 | a naive run that stops in its first pass is sound |
| TraversalProperties.EmptySound | DotnetWatchFail/Program.cs:206-207 | when the queue empties, the run reports `Unknown` with its two counters, and the histories satisfy `Explored` |
| TraversalProperties.StopSound | DotnetWatchFail/Program.cs:184-195 | a run stopping at a `WebAssembly` project reports the profile of that project and of the last `AspNetCore` project before it, and the projects dequeued before it satisfy `ExploredBy` with the final enqueued history |
| TraversalProperties.MemoRefsAreRefs | DotnetWatchFail/Program.cs:198-204 | everything the memoized loop enqueues is a reference of a dequeued project |
| TraversalProperties.ExploredEnqueuesReferences | DotnetWatchFail/Program.cs:142-145 | under either loop, everything enqueued is a reference of a dequeued project |
| TraversalProperties.RunMemoSound | DotnetWatchFail/Program.cs:167-207 | every memoized run from a consistent state ends soundly: every sample is the queue length right after its dequeue (`Sampled`); `Unknown` only with an empty queue, `Explored` histories and the counters reported; otherwise at the first `WebAssembly` project with the profile it determines, the projects before it satisfying `ExploredBy`; so the enqueued history is exactly what the loop enqueues for the dequeued projects in both cases, and every enqueued project is reachable |
| TraversalProperties.RunNaiveSound | DotnetWatchFail/Program.cs:111-148 | the same for every naive run that ends within its budget |
| RunProperties.MemoizedRunSound | DotnetWatchFail/Program.cs:157-213 | the optimized classifier's run from the entry points is sound: its enqueued history is exactly what the memoized loop enqueues for the projects it dequeued (before the stopping one, on a stop), every enqueued project is reachable, every sample is the queue length right after its dequeue, and its outcome and counters are read off these histories |
| RunProperties.NaiveRunSound | DotnetWatchFail/Program.cs:102-154 | the naive classifier's run from the entry points is sound whenever it ends: its enqueued history is exactly the references of the projects it dequeued, in order (before the stopping one, on a stop), every enqueued project is reachable, every sample is the queue length right after its dequeue, and its outcome and counters are read off these histories |
| RunProperties.OutcomeByReachability | DotnetWatchFail/Program.cs:111-148 | a sound finished run dequeued only reachable projects; it ends with `Unknown` exactly when no reachable project is a `WebAssembly` project, and then it dequeued every reachable project |
| RunProperties.MemoizedReachability | DotnetWatchFail/Program.cs:167-207 | the memoized run reports `Unknown` exactly when no reachable project is a `WebAssembly` project, processes only reachable projects, and on `Unknown` has processed all of them |
| RunProperties.NaiveReachability | DotnetWatchFail/Program.cs:111-148 | the same for every naive run that ends within its budget |
| RunProperties.MemoizedCountBound | DotnetWatchFail/Program.cs:165-204 | the memoized run enqueues each project as a reference at most once, so `countProcessed <= |entryPoints| + |nodes|` |
| RunProperties.HostedProfile | DotnetWatchFail/Program.cs:131-135 | a `BlazorHosted` result names the last project dequeued, a reachable `WebAssembly` project, and a different reachable `AspNetCore` project dequeued before it |
| RunProperties.MemoizedHosted | DotnetWatchFail/Program.cs:187-191 | every `BlazorHosted` result of the memoized run pairs a reachable `AspNetCore` host with a different reachable `WebAssembly` project |
| RunProperties.NaiveHosted | DotnetWatchFail/Program.cs:131-135 | the same for the naive run |
| RunProperties.RunDiagnostics | DotnetWatchFail/Program.cs:118-119 | `countProcessed` is the number of dequeues; `maxQueueSize` bounds every post-dequeue queue length and is one of them, or 0 when nothing was dequeued; the i-th sample is the number of entry points plus what was enqueued for the first i dequeues, less i + 1 |
| RunProperties.HostDiffersFromWebAssemblyProject | DotnetWatchFail/Program.cs:131 | in every state a run reaches, the "different project" test passes whenever a candidate host exists at a `WebAssembly` project |
| RunProperties.NaiveFuelMonotone | DotnetWatchFail/Program.cs:111-147 | a naive run that ends within a budget gives the same result under any larger budget |
| RunProperties.NaiveWithinBudget | DotnetWatchFail/Program.cs:111-119 | a naive run that ends within a budget dequeues no more projects than the budget |
| HotReloadProfile.InferHotReloadProfileOptimized | DotnetWatchFail/Program.cs:157-213 | the optimized loop ends and returns the memoized run's profile and counters; it processes at most `|entryPoints| + |nodes|` projects; it reports `Unknown` exactly when no reachable project is a `WebAssembly` project; any `BlazorHosted` result pairs a reachable `AspNetCore` host with a different reachable `WebAssembly` project |
| HotReloadProfile.MemoizedGuarantees | DotnetWatchFail/Program.cs:157-213 | the memoized run from the entry points meets the count bound, reports `Unknown` exactly when no reachable project is a `WebAssembly` project, and pairs reachable, different projects in a `BlazorHosted` result |
| HotReloadProfile.EnqueueUnvisited | DotnetWatchFail/Program.cs:198-204 | the loop of `visited.Add` then `queue.Enqueue` produces the queue and `visited` of the memoized enqueue |
| HotReloadProfile.InferHotReloadProfile | DotnetWatchFail/Program.cs:102-154 | the naive loop returns the naive run's profile and counters when it ends within the budget, and reports `None` after exactly `fuel` dequeues otherwise; when it ends, it reports `Unknown` exactly when no reachable project is a `WebAssembly` project, and any `BlazorHosted` result pairs a reachable `AspNetCore` host with a different reachable `WebAssembly` project |
| HotReloadProfile.EnqueueEvery | DotnetWatchFail/Program.cs:142-145 | every reference is appended to the queue in declaration order |
| Scenarios.NaiveLoopsOnCycle | DotnetWatchFail/Program.cs:142-145 | on A → B → A, neither project having a capability, the naive run never ends, whatever the budget |
| Scenarios.MemoizedCycleRevisitsEntry | DotnetWatchFail/Program.cs:165 | on A → B → A the memoized run dequeues A, B, A and reports `Unknown(0, 3)` |
| Scenarios.NaiveDiamond | DotnetWatchFail/Program.cs:142-145 | on the diamond A → {B, C} → D the naive run dequeues A, B, C, D, D and reports `Unknown(1, 5)` |
| Scenarios.MemoizedDiamond | DotnetWatchFail/Program.cs:198-204 | on the same diamond the memoized run dequeues A, B, C, D and reports `Unknown(1, 4)` |
| Scenarios.NaiveAndMemoizedDisagree | DotnetWatchFail/Program.cs:123-127 | on an acyclic graph with two `AspNetCore` projects the naive run reports `BlazorHosted(1, 3)` after 5 dequeues and the memoized run `BlazorHosted(2, 3)` after 4 |
| Scenarios.AspNetCoreFirstNeverClassifies | DotnetWatchFail/Program.cs:123-127 | a single project listing `AspNetCore` before `WebAssembly` ends with `Unknown(0, 1)` under both classifiers |
| Scenarios.WebAssemblyFirstIsStandalone | DotnetWatchFail/Program.cs:128-138 | a single project listing `WebAssembly` first is `BlazorWebAssembly` after one dequeue under both classifiers |
| Scenarios.NaiveHostedDetection | DotnetWatchFail/Program.cs:131-134 | an `AspNetCore` project A referencing a `WebAssembly` project B gives `BlazorHosted(A, B)` under the naive classifier |
| Scenarios.MemoizedHostedDetection | DotnetWatchFail/Program.cs:187-190 | the same under the memoized classifier |

## Left out

- `Startup`, which builds the MSBuild graph, times the run and waits for input (DotnetWatchFail/Program.cs:11-41), is I/O and host plumbing.
- `CreateProjects` and `GetCsProj` (DotnetWatchFail/Program.cs:43-97) write project files to disk, and are not part of the classifier.
- MSBuild evaluation (`GetItems("ProjectCapability")`, `EvaluatedInclude`, `ProjectReferences`) is represented by each `Node`'s fixed `caps` and `refs`.
- The console messages, including the file paths printed for `BlazorHosted`, are replaced by the returned profile. Project identity is the node index, not the `ProjectInstance` object.
- `maxQueueSize`, `countProcessed` and `queue.Count` are C# `int`s (DotnetWatchFail/Program.cs:107-108, 118-119, 162-163, 174-175). `countProcessed++` wraps to a negative value after 2^31 − 1 dequeues in C#'s default unchecked context. The model's counters are unbounded `nat`s and never wrap. The naive variant's blow-up on chained diamonds is where the count grows fastest.
- References to identities outside the graph cannot occur in an MSBuild graph. `ValidGraph` is therefore a precondition, and no error path is modelled.
- HotReloadProfile.InferHotReloadProfile: the source can loop for ever. When a reference cycle is reachable from the entry points and no reachable project's scan ends on `WebAssembly`, the queue never empties. The model adds a `fuel` budget of dequeues and returns `None` when it runs out. `Scenarios.NaiveLoopsOnCycle` shows on A → B → A that no budget suffices there. A cycle does not prevent termination when the run stops at a `WebAssembly` project first.
