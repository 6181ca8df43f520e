/** The two classifiers of `Program.cs`, as the loops they are: a FIFO
    queue of project identities, the nullable candidate host, the two
    diagnostic counters and, for the optimized one, the `visited` set.
    A ghost `State` follows the locals step by step; through it each method
    is proved to compute what its run in `Traversal` computes, and the facts
    proved about those runs are restated on the methods. */
module HotReloadProfile {
  import opened ProjectGraph
  import opened Capabilities
  import opened Traversal
  import opened TraversalProperties
  import opened RunProperties

  /** `InferHotReloadProfileOptimized`: a reference is enqueued only when
      `visited.Add` succeeds. Entry points are not added to `visited`. */
  method InferHotReloadProfileOptimized(nodes: seq<Node>, entryPoints: seq<nat>)
    returns (outcome: Outcome, countProcessed: nat, maxQueueSize: nat)
    requires ValidGraph(nodes, entryPoints)
    ensures var f := RunMemo(nodes, Init(entryPoints));
      outcome == f.outcome && countProcessed == f.final.countProcessed &&
      maxQueueSize == f.final.maxQueueSize
    ensures countProcessed <= |entryPoints| + |nodes|
    ensures outcome.Unknown? <==>
      forall x: nat :: Reachable(nodes, entryPoints, x) ==> x < |nodes| && !IsWebAssembly(nodes, x)
    ensures outcome.BlazorHosted? ==>
      outcome.host != outcome.wasm && outcome.host < |nodes| && outcome.wasm < |nodes| &&
      IsAspNetCore(nodes, outcome.host) && IsWebAssembly(nodes, outcome.wasm) &&
      Reachable(nodes, entryPoints, outcome.host) && Reachable(nodes, entryPoints, outcome.wasm)
  {

    var queue := entryPoints;
    var host: Option<nat> := None;
    maxQueueSize := 0;
    countProcessed := 0;
    var visited: set<nat> := {};
    ghost var st := Init(entryPoints);

    while queue != []
      invariant StateOk(nodes, st)
      invariant queue == st.queue && host == st.host && visited == st.visited
      invariant maxQueueSize == st.maxQueueSize && countProcessed == st.countProcessed
      invariant RunMemo(nodes, st) == RunMemo(nodes, Init(entryPoints))
      decreases Ids(|nodes|) - visited, |queue|
    {
      ghost var before := st;
      var current := queue[0];
      assert current in queue;
      queue := queue[1..];
      maxQueueSize := Max(maxQueueSize, |queue|);
      countProcessed := countProcessed + 1;
      st := Dequeue(st);

      var m := ScanCapabilities(nodes[current].caps);
      if m == AspNetCore {
        host := Some(current);
        st := st.(host := host);
      } else if m == WebAssembly {
        RunMemoStops(nodes, before);
        MemoizedGuarantees(nodes, entryPoints);
        if host.Some? && host.value != current {
          outcome := BlazorHosted(host.value, current);
          return;
        }
        outcome := BlazorWebAssembly;
        return;
      }

      assert nodes[current] in nodes;
      queue, visited := EnqueueUnvisited(nodes[current].refs, st, queue, visited);
      ExpandChangesFrontier(nodes, Memoized, current, st);
      st := Expand(nodes, Memoized, current, st);
      RunMemoContinues(nodes, before, st);
    }
    outcome := Unknown(maxQueueSize, countProcessed);
    MemoizedGuarantees(nodes, entryPoints);
  }

  /** What the memoized run from the entry points guarantees, gathered for the method. */
  lemma MemoizedGuarantees(nodes: seq<Node>, entryPoints: seq<nat>)
    requires ValidGraph(nodes, entryPoints)
    ensures var o := RunMemo(nodes, Init(entryPoints)).outcome;
      RunMemo(nodes, Init(entryPoints)).final.countProcessed <= |entryPoints| + |nodes| &&
      (o.Unknown? <==>
        forall x: nat :: Reachable(nodes, entryPoints, x) ==> x < |nodes| && !IsWebAssembly(nodes, x)) &&
      (o.BlazorHosted? ==>
        o.host != o.wasm && o.host < |nodes| && o.wasm < |nodes| &&
        IsAspNetCore(nodes, o.host) && IsWebAssembly(nodes, o.wasm) &&
        Reachable(nodes, entryPoints, o.host) && Reachable(nodes, entryPoints, o.wasm))
  {
    MemoizedCountBound(nodes, entryPoints);
    MemoizedReachability(nodes, entryPoints);
    MemoizedHosted(nodes, entryPoints);
  }

  /** The optimized classifier's `foreach` over a project's references:
      `visited.Add(project)` and, when it succeeds, `queue.Enqueue(project)`. */
  method EnqueueUnvisited(refs: seq<nat>, ghost s: State, queue0: seq<nat>, visited0: set<nat>)
    returns (queue: seq<nat>, visited: set<nat>)
    requires queue0 == s.queue && visited0 == s.visited
    ensures queue == EnqueueNew(refs, s).queue && visited == EnqueueNew(refs, s).visited
  {
    queue, visited := queue0, visited0;
    ghost var cur := s;
    var i := 0;
    while i < |refs|
      invariant 0 <= i <= |refs|
      invariant queue == cur.queue && visited == cur.visited
      invariant EnqueueNew(refs[i..], cur) == EnqueueNew(refs, s)
    {
      var project := refs[i];
      assert refs[i..][1..] == refs[i + 1..];
      if project !in visited {
        visited := visited + {project};
        queue := queue + [project];
      }
      cur := AddIfNew(project, cur);
      i := i + 1;
    }
    assert refs[i..] == [];
  }

  /** `InferHotReloadProfile`: every reference is enqueued. The source can
      loop for ever when a reference cycle is reachable and no reachable
      project's scan ends on `WebAssembly`, so this model stops after `fuel`
      dequeues and then reports `None`. */
  method InferHotReloadProfile(nodes: seq<Node>, entryPoints: seq<nat>, fuel: nat)
    returns (outcome: Option<Outcome>, countProcessed: nat, maxQueueSize: nat)
    requires ValidGraph(nodes, entryPoints)
    ensures var r := RunNaive(nodes, Init(entryPoints), fuel);
      (outcome.None? <==> r.None?) &&
      (outcome.Some? ==>
        outcome.value == r.value.outcome && countProcessed == r.value.final.countProcessed &&
        maxQueueSize == r.value.final.maxQueueSize)
    ensures outcome.None? ==> countProcessed == fuel
    ensures outcome.Some? ==> (outcome.value.Unknown? <==>
      forall x: nat :: Reachable(nodes, entryPoints, x) ==> x < |nodes| && !IsWebAssembly(nodes, x))
    ensures outcome.Some? && outcome.value.BlazorHosted? ==>
      outcome.value.host != outcome.value.wasm && outcome.value.host < |nodes| && outcome.value.wasm < |nodes| &&
      IsAspNetCore(nodes, outcome.value.host) && IsWebAssembly(nodes, outcome.value.wasm) &&
      Reachable(nodes, entryPoints, outcome.value.host) && Reachable(nodes, entryPoints, outcome.value.wasm)
  {
    NaiveHosted(nodes, entryPoints, fuel);
    var run := RunNaive(nodes, Init(entryPoints), fuel);
    if run.Some? {
      NaiveReachability(nodes, entryPoints, fuel, run.value);
    }

    var queue := entryPoints;
    var host: Option<nat> := None;
    maxQueueSize := 0;
    countProcessed := 0;
    var budget: nat := fuel;
    ghost var st := Init(entryPoints);

    while queue != []
      invariant StateOk(nodes, st) && st.visited == {}
      invariant queue == st.queue && host == st.host
      invariant maxQueueSize == st.maxQueueSize && countProcessed == st.countProcessed
      invariant budget + countProcessed == fuel
      invariant RunNaive(nodes, st, budget) == RunNaive(nodes, Init(entryPoints), fuel)
      decreases budget
    {
      if budget == 0 {
        return None, countProcessed, maxQueueSize;
      }
      budget := budget - 1;
      ghost var before := st;
      var current := queue[0];
      assert current in queue;
      queue := queue[1..];
      maxQueueSize := Max(maxQueueSize, |queue|);
      countProcessed := countProcessed + 1;
      st := Dequeue(st);

      var m := ScanCapabilities(nodes[current].caps);
      if m == AspNetCore {
        host := Some(current);
        st := st.(host := host);
      } else if m == WebAssembly {
        RunNaiveStops(nodes, before, budget + 1);
        if host.Some? && host.value != current {
          return Some(BlazorHosted(host.value, current)), countProcessed, maxQueueSize;
        }
        return Some(BlazorWebAssembly), countProcessed, maxQueueSize;
      }

      assert nodes[current] in nodes;
      var refs := nodes[current].refs;
      queue := EnqueueEvery(refs, queue);
      st := Expand(nodes, Naive, current, st);
      RunNaiveContinues(nodes, before, st, budget + 1);
    }
    return Some(Unknown(maxQueueSize, countProcessed)), countProcessed, maxQueueSize;
  }

  /** The naive classifier's `foreach` over a project's references: every
      one is enqueued, in declaration order. */
  method EnqueueEvery(refs: seq<nat>, queue0: seq<nat>) returns (queue: seq<nat>)
    ensures queue == queue0 + refs
  {
    queue := queue0;
    var i := 0;
    while i < |refs|
      invariant 0 <= i <= |refs|
      invariant queue == queue0 + refs[..i]
    {
      queue := queue + [refs[i]];
      assert refs[..i + 1] == refs[..i] + [refs[i]];
      i := i + 1;
    }
    assert refs[..i] == refs;
  }
}
