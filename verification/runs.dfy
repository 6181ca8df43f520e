/** The whole-run guarantees of both classifiers. */
module RunProperties {
  import opened ProjectGraph
  import opened Capabilities
  import opened Traversal
  import opened TraversalProperties

  /** The memoized run from the entry points is sound. */
  lemma MemoizedRunSound(nodes: seq<Node>, entryPoints: seq<nat>)
    requires ValidGraph(nodes, entryPoints)
    ensures Sound(nodes, entryPoints, Memoized, RunMemo(nodes, Init(entryPoints)))
  {
    InitConsistent(nodes, entryPoints, Memoized);
    RunMemoSound(nodes, entryPoints, Init(entryPoints));
  }

  /** A naive run from the entry points that ends within its budget is sound. */
  lemma NaiveRunSound(nodes: seq<Node>, entryPoints: seq<nat>, fuel: nat, f: Finish)
    requires ValidGraph(nodes, entryPoints)
    requires RunNaive(nodes, Init(entryPoints), fuel) == Some(f)
    ensures Sound(nodes, entryPoints, Naive, f)
  {
    InitConsistent(nodes, entryPoints, Naive);
    RunNaiveSound(nodes, entryPoints, Init(entryPoints), fuel, f);
  }

  /** A finished run dequeues only reachable projects. It ends without a
      profile exactly when no reachable project's scan ends on `WebAssembly`,
      and then it has dequeued every reachable project. */
  lemma OutcomeByReachability(nodes: seq<Node>, entryPoints: seq<nat>, policy: Policy, f: Finish)
    requires ValidGraph(nodes, entryPoints) && Sound(nodes, entryPoints, policy, f)
    ensures forall x :: x in f.final.dequeued ==> Reachable(nodes, entryPoints, x)
    ensures f.outcome.Unknown? ==> forall x: nat :: Reachable(nodes, entryPoints, x) ==> x in f.final.dequeued
    ensures f.outcome.Unknown? <==>
      forall x: nat :: Reachable(nodes, entryPoints, x) ==> x < |nodes| && !IsWebAssembly(nodes, x)
  {
    var s := f.final;
    forall x | x in s.dequeued ensures Reachable(nodes, entryPoints, x) {
      assert x in s.dequeued + s.queue;
      assert x in entryPoints + s.enqueued;
      if x in entryPoints {
        EntryReachable(nodes, entryPoints, x);
      }
    }
    if f.outcome.Unknown? {
      var c := Elems(s.dequeued);
      assert entryPoints + s.enqueued == s.dequeued;
      forall e | e in entryPoints ensures e in c {
        assert e in entryPoints + s.enqueued;
      }
      forall y, r | y in c && y < |nodes| && r in nodes[y].refs ensures r in c {
        var i :| 0 <= i < |s.dequeued| && s.dequeued[i] == y;
        assert r in s.enqueued;
        assert r in entryPoints + s.enqueued;
      }
      forall x: nat | Reachable(nodes, entryPoints, x) ensures x in s.dequeued && x < |nodes| && !IsWebAssembly(nodes, x) {
        ClosedHoldsReachable(nodes, entryPoints, c, x);
        var i :| 0 <= i < |s.dequeued| && s.dequeued[i] == x;
      }
    } else {
      var d := s.dequeued;
      assert d[|d| - 1] in d;
    }
  }

  /** The memoized classifier reports no profile exactly when no project
      reachable from the entry points is a `WebAssembly` project; it only
      processes reachable projects, and when it reports no profile it has
      processed all of them. */
  lemma MemoizedReachability(nodes: seq<Node>, entryPoints: seq<nat>)
    requires ValidGraph(nodes, entryPoints)
    ensures var f := RunMemo(nodes, Init(entryPoints));
      (forall x :: x in f.final.dequeued ==> Reachable(nodes, entryPoints, x)) &&
      (f.outcome.Unknown? ==> forall x: nat :: Reachable(nodes, entryPoints, x) ==> x in f.final.dequeued) &&
      (f.outcome.Unknown? <==>
        forall x: nat :: Reachable(nodes, entryPoints, x) ==> x < |nodes| && !IsWebAssembly(nodes, x))
  {
    MemoizedRunSound(nodes, entryPoints);
    OutcomeByReachability(nodes, entryPoints, Memoized, RunMemo(nodes, Init(entryPoints)));
  }

  /** The same for a naive run that ends within its budget. */
  lemma NaiveReachability(nodes: seq<Node>, entryPoints: seq<nat>, fuel: nat, f: Finish)
    requires ValidGraph(nodes, entryPoints)
    requires RunNaive(nodes, Init(entryPoints), fuel) == Some(f)
    ensures forall x :: x in f.final.dequeued ==> Reachable(nodes, entryPoints, x)
    ensures f.outcome.Unknown? ==> forall x: nat :: Reachable(nodes, entryPoints, x) ==> x in f.final.dequeued
    ensures f.outcome.Unknown? <==>
      forall x: nat :: Reachable(nodes, entryPoints, x) ==> x < |nodes| && !IsWebAssembly(nodes, x)
  {
    NaiveRunSound(nodes, entryPoints, fuel, f);
    OutcomeByReachability(nodes, entryPoints, Naive, f);
  }

  /** The memoized run enqueues each project as a reference at most once,
      so it dequeues at most one project per entry point and per node. */
  lemma MemoizedCountBound(nodes: seq<Node>, entryPoints: seq<nat>)
    requires ValidGraph(nodes, entryPoints)
    ensures var f := RunMemo(nodes, Init(entryPoints));
      NoDup(f.final.enqueued) && f.final.countProcessed <= |entryPoints| + |nodes|
  {
    MemoizedRunSound(nodes, entryPoints);
    var s := RunMemo(nodes, Init(entryPoints)).final;
    NoDupCard(s.enqueued);
    BoundedByGraph(s.visited, |nodes|);
    assert |entryPoints| + |s.enqueued| == |s.dequeued| + |s.queue|;
  }

  /** A `BlazorHosted` profile names two different projects: a host whose
      scan ends on `AspNetCore`, dequeued earlier, and the `WebAssembly`
      project the run stopped at. */
  lemma HostedProfile(nodes: seq<Node>, entryPoints: seq<nat>, policy: Policy, f: Finish)
    requires ValidGraph(nodes, entryPoints)
    requires Sound(nodes, entryPoints, policy, f) && f.outcome.BlazorHosted?
    ensures var d := f.final.dequeued;
      d != [] && f.outcome.wasm == d[|d| - 1] &&
      f.outcome.host != f.outcome.wasm && f.outcome.host < |nodes| && f.outcome.wasm < |nodes| &&
      IsAspNetCore(nodes, f.outcome.host) && IsWebAssembly(nodes, f.outcome.wasm) &&
      (exists i :: 0 <= i < |d| - 1 && d[i] == f.outcome.host) &&
      Reachable(nodes, entryPoints, f.outcome.host) && Reachable(nodes, entryPoints, f.outcome.wasm)
  {
    var d := f.final.dequeued;
    LastAspNetCoreIsLast(nodes, d[..|d| - 1]);
    var i :| 0 <= i < |d| - 1 && d[..|d| - 1][i] == f.outcome.host;
    assert d[i] == f.outcome.host;
    OutcomeByReachability(nodes, entryPoints, policy, f);
    assert d[i] in d && d[|d| - 1] in d;
  }

  /** Every `BlazorHosted` profile of the memoized run pairs an `AspNetCore`
      host with a different `WebAssembly` project. */
  lemma MemoizedHosted(nodes: seq<Node>, entryPoints: seq<nat>)
    requires ValidGraph(nodes, entryPoints)
    ensures var o := RunMemo(nodes, Init(entryPoints)).outcome;
      o.BlazorHosted? ==>
        o.host != o.wasm && o.host < |nodes| && o.wasm < |nodes| &&
        IsAspNetCore(nodes, o.host) && IsWebAssembly(nodes, o.wasm) &&
        Reachable(nodes, entryPoints, o.host) && Reachable(nodes, entryPoints, o.wasm)
  {
    MemoizedRunSound(nodes, entryPoints);
    var f := RunMemo(nodes, Init(entryPoints));
    if f.outcome.BlazorHosted? {
      HostedProfile(nodes, entryPoints, Memoized, f);
    }
  }

  /** The same for a naive run that ends within its budget. */
  lemma NaiveHosted(nodes: seq<Node>, entryPoints: seq<nat>, fuel: nat)
    requires ValidGraph(nodes, entryPoints)
    ensures var r := RunNaive(nodes, Init(entryPoints), fuel);
      r.Some? && r.value.outcome.BlazorHosted? ==>
        var o := r.value.outcome;
        o.host != o.wasm && o.host < |nodes| && o.wasm < |nodes| &&
        IsAspNetCore(nodes, o.host) && IsWebAssembly(nodes, o.wasm) &&
        Reachable(nodes, entryPoints, o.host) && Reachable(nodes, entryPoints, o.wasm)
  {
    var r := RunNaive(nodes, Init(entryPoints), fuel);
    if r.Some? {
      NaiveRunSound(nodes, entryPoints, fuel, r.value);
      if r.value.outcome.BlazorHosted? {
        HostedProfile(nodes, entryPoints, Naive, r.value);
      }
    }
  }

  /** `countProcessed` is the number of dequeues, and `maxQueueSize` is the
      largest queue length sampled after a dequeue (0 when nothing was dequeued). */
  lemma RunDiagnostics(nodes: seq<Node>, entryPoints: seq<nat>, policy: Policy, f: Finish)
    requires Sound(nodes, entryPoints, policy, f)
    ensures var s := f.final;
      s.countProcessed == |s.dequeued| == |s.samples| &&
      (forall i :: 0 <= i < |s.samples| ==> s.samples[i] <= s.maxQueueSize) &&
      (s.samples == [] ==> s.maxQueueSize == 0) &&
      (s.samples != [] ==> s.maxQueueSize in s.samples) &&
      forall i :: 0 <= i < |s.samples| ==>
        s.samples[i] + i + 1 == |entryPoints| + |EnqueuedFor(nodes, policy, s.dequeued[..i])|
  {
    var s := f.final;
    MaxOfIsMaximum(s.samples);
    forall i | 0 <= i < |s.samples|
      ensures s.samples[i] + i + 1 == |entryPoints| + |EnqueuedFor(nodes, policy, s.dequeued[..i])|
    {
      SamplesOfAt(nodes, policy, |entryPoints|, s.dequeued, i);
    }
  }

  /** The code's "different node" test never fails: when the scan of the
      dequeued project ends on `WebAssembly`, a candidate host, if any, is a
      project whose scan ended on `AspNetCore`, hence another project. */
  lemma HostDiffersFromWebAssemblyProject(nodes: seq<Node>, entryPoints: seq<nat>, policy: Policy, s: State)
    requires Consistent(nodes, entryPoints, policy, s) && s.queue != [] && s.queue[0] < |nodes|
    requires IsWebAssembly(nodes, s.queue[0]) && s.host.Some?
    ensures s.host.value != s.queue[0]
  {
    LastAspNetCoreIsLast(nodes, s.dequeued);
  }

  /** A naive run that ends within a budget ends the same way under any larger budget. */
  lemma {:induction false} NaiveFuelMonotone(nodes: seq<Node>, s: State, fuel: nat, more: nat)
    requires StateOk(nodes, s) && fuel <= more
    requires RunNaive(nodes, s, fuel).Some?
    ensures RunNaive(nodes, s, more) == RunNaive(nodes, s, fuel)
    decreases fuel
  {
    if s.queue != [] {
      var r := Step(nodes, Naive, s);
      StepKeepsStateOk(nodes, Naive, s);
      if r.Continue? {
        NaiveFuelMonotone(nodes, r.next, fuel - 1, more - 1);
      }
    }
  }

  /** A naive run that ends within a budget dequeues no more projects than the budget. */
  lemma {:induction false} NaiveWithinBudget(nodes: seq<Node>, s: State, fuel: nat)
    requires StateOk(nodes, s)
    requires RunNaive(nodes, s, fuel).Some?
    ensures RunNaive(nodes, s, fuel).value.final.countProcessed <= s.countProcessed + fuel
    decreases fuel
  {
    if s.queue != [] {
      var r := Step(nodes, Naive, s);
      StepKeepsStateOk(nodes, Naive, s);
      if r.Continue? {
        NaiveWithinBudget(nodes, r.next, fuel - 1);
      }
    }
  }
}
