/** What a run of either classifier guarantees, stated over the history
    that `State` records and proved step by step. */
module TraversalProperties {
  import opened ProjectGraph
  import opened Capabilities
  import opened Traversal

  predicate IsAspNetCore(nodes: seq<Node>, x: nat)
    requires x < |nodes|
  {
    FirstMatch(nodes[x].caps) == AspNetCore
  }

  predicate IsWebAssembly(nodes: seq<Node>, x: nat)
    requires x < |nodes|
  {
    FirstMatch(nodes[x].caps) == WebAssembly
  }

  ghost predicate InGraph(nodes: seq<Node>, ids: seq<nat>) {
    forall i :: 0 <= i < |ids| ==> ids[i] < |nodes|
  }

  /** The last project in `ids` whose scan ends on `AspNetCore`: the
      candidate host under "last seen wins". */
  function LastAspNetCore(nodes: seq<Node>, ids: seq<nat>): Option<nat>
    requires InGraph(nodes, ids)
  {
    if ids == [] then None
    else if IsAspNetCore(nodes, ids[|ids| - 1]) then Some(ids[|ids| - 1])
    else LastAspNetCore(nodes, ids[..|ids| - 1])
  }

  /** There is no candidate host exactly when no project of `ids` ends its scan on `AspNetCore`. */
  lemma {:induction false} LastAspNetCoreNone(nodes: seq<Node>, ids: seq<nat>)
    requires InGraph(nodes, ids)
    ensures LastAspNetCore(nodes, ids).None? <==> forall i :: 0 <= i < |ids| ==> !IsAspNetCore(nodes, ids[i])
  {
    if ids != [] {
      var k := |ids| - 1;
      var init := ids[..k];
      assert forall i :: 0 <= i < k ==> ids[i] == init[i];
      if !IsAspNetCore(nodes, ids[k]) {
        LastAspNetCoreNone(nodes, init);
      }
    }
  }

  /** A candidate host is an `AspNetCore` project of `ids` with none after it: last seen wins. */
  lemma {:induction false} LastAspNetCoreIsLast(nodes: seq<Node>, ids: seq<nat>)
    requires InGraph(nodes, ids) && LastAspNetCore(nodes, ids).Some?
    ensures
      exists i :: 0 <= i < |ids| && ids[i] == LastAspNetCore(nodes, ids).value &&
        IsAspNetCore(nodes, ids[i]) && forall j :: i < j < |ids| ==> !IsAspNetCore(nodes, ids[j])
  {
    var k := |ids| - 1;
    var h := LastAspNetCore(nodes, ids).value;
    if IsAspNetCore(nodes, ids[k]) {
      assert ids[k] == h;
    } else {
      var init := ids[..k];
      assert InGraph(nodes, init);
      assert LastAspNetCore(nodes, init).value == h;
      LastAspNetCoreIsLast(nodes, init);
      var i :| 0 <= i < k && init[i] == h && IsAspNetCore(nodes, init[i]) &&
        forall j :: i < j < k ==> !IsAspNetCore(nodes, init[j]);
      assert ids[i] == init[i];
      assert forall j :: i < j < k ==> ids[j] == init[j];
    }
  }

  /** None of the projects in `ids` ends its scan on `WebAssembly`. */
  ghost predicate NoneClassified(nodes: seq<Node>, ids: seq<nat>) {
    forall i :: 0 <= i < |ids| ==> ids[i] < |nodes| && !IsWebAssembly(nodes, ids[i])
  }

  /** FIFO order: what went in, in order, is what came out followed by what is left. */
  ghost predicate Fifo(entryPoints: seq<nat>, s: State) {
    entryPoints + s.enqueued == s.dequeued + s.queue
  }

  /** `countProcessed` counts the dequeues and `maxQueueSize` is the largest sample. */
  ghost predicate DiagnosticsTracked(s: State) {
    s.countProcessed == |s.dequeued| &&
    |s.samples| == |s.dequeued| &&
    s.maxQueueSize == MaxOf(s.samples)
  }

  /** The candidate host is the last dequeued `AspNetCore` project. */
  ghost predicate HostTracked(nodes: seq<Node>, s: State) {
    InGraph(nodes, s.dequeued) && s.host == LastAspNetCore(nodes, s.dequeued)
  }

  /** Memoized: `visited` is exactly what was enqueued as a reference, each
      project at most once. Naive: nothing is ever visited. */
  ghost predicate VisitedTracked(policy: Policy, s: State) {
    match policy
    case Memoized => NoDup(s.enqueued) && s.visited == Elems(s.enqueued)
    case Naive => s.visited == {}
  }

  /** The facts every state of a run keeps. */
  ghost predicate Consistent(nodes: seq<Node>, entryPoints: seq<nat>, policy: Policy, s: State) {
    StateOk(nodes, s) && Fifo(entryPoints, s) && DiagnosticsTracked(s) &&
    HostTracked(nodes, s) && VisitedTracked(policy, s)
  }

  /** Every project enqueued as a reference can be reached from an entry point. */
  ghost predicate Reaching(nodes: seq<Node>, entryPoints: seq<nat>, s: State) {
    forall x :: x in s.enqueued ==> Reachable(nodes, entryPoints, x)
  }

  /** Every reference of every project in `d` occurs in `e`. */
  ghost predicate Closed(nodes: seq<Node>, d: seq<nat>, e: seq<nat>) {
    forall i, r :: 0 <= i < |d| && d[i] < |nodes| && r in nodes[d[i]].refs ==> r in e
  }

  /** The references of the projects `ids`, in order, each project's in declaration order. */
  function RefsOf(nodes: seq<Node>, ids: seq<nat>): seq<nat>
    requires InGraph(nodes, ids)
  {
    if ids == [] then [] else RefsOf(nodes, ids[..|ids| - 1]) + nodes[ids[|ids| - 1]].refs
  }

  /** The projects the memoized loop enqueues while dequeueing `ids`: each
      project's references that `visited` had not yet accepted, in order. */
  function MemoRefsOf(nodes: seq<Node>, ids: seq<nat>): seq<nat>
    requires InGraph(nodes, ids)
  {
    if ids == [] then []
    else
      var e := MemoRefsOf(nodes, ids[..|ids| - 1]);
      e + Unseen(Elems(e), nodes[ids[|ids| - 1]].refs)
  }

  /** What the dequeued projects `d` and the enqueued history `e` satisfy
      between passes: no project of `d` was `WebAssembly`, the references of
      every project of `d` were enqueued, and `e` is exactly what the loop
      enqueues for `d` (all the references in order for the naive loop, the
      unvisited ones in order for the memoized loop). */
  ghost predicate ExploredBy(nodes: seq<Node>, policy: Policy, d: seq<nat>, e: seq<nat>) {
    NoneClassified(nodes, d) && InGraph(nodes, d) && Closed(nodes, d, e) &&
    e == EnqueuedFor(nodes, policy, d)
  }

  /** What the loop of `policy` enqueues while dequeueing `ids`. */
  function EnqueuedFor(nodes: seq<Node>, policy: Policy, ids: seq<nat>): seq<nat>
    requires InGraph(nodes, ids)
  {
    match policy
    case Naive => RefsOf(nodes, ids)
    case Memoized => MemoRefsOf(nodes, ids)
  }

  /** Everything the memoized loop enqueues is a reference of a dequeued project. */
  lemma {:induction false} MemoRefsAreRefs(nodes: seq<Node>, ids: seq<nat>)
    requires InGraph(nodes, ids)
    ensures forall x :: x in MemoRefsOf(nodes, ids) ==> x in RefsOf(nodes, ids)
    decreases |ids|
  {
    if ids != [] {
      var init := ids[..|ids| - 1];
      assert InGraph(nodes, init);
      MemoRefsAreRefs(nodes, init);
      UnseenIsNew(Elems(MemoRefsOf(nodes, init)), nodes[ids[|ids| - 1]].refs);
    }
  }

  /** Under either loop, everything enqueued for the dequeued projects is a
      reference of one of them. */
  lemma ExploredEnqueuesReferences(nodes: seq<Node>, policy: Policy, d: seq<nat>, e: seq<nat>)
    requires ExploredBy(nodes, policy, d, e)
    ensures forall x :: x in e ==> x in RefsOf(nodes, d)
  {
    if policy == Memoized {
      MemoRefsAreRefs(nodes, d);
    }
  }

  /** `ExploredBy` of a state's own histories. */
  ghost predicate Explored(nodes: seq<Node>, policy: Policy, s: State) {
    ExploredBy(nodes, policy, s.dequeued, s.enqueued)
  }

  /** The queue lengths right after each dequeue of `ids`: the entry points
      plus what was enqueued for the earlier dequeues, less the dequeues so far. */
  function SamplesOf(nodes: seq<Node>, policy: Policy, entries: nat, ids: seq<nat>): (r: seq<int>)
    requires InGraph(nodes, ids)
    ensures |r| == |ids|
  {
    if ids == [] then []
    else
      var init := ids[..|ids| - 1];
      SamplesOf(nodes, policy, entries, init) + [entries + |EnqueuedFor(nodes, policy, init)| - |ids|]
  }

  /** The i-th sample is taken after i + 1 dequeues and the enqueues of the first i. */
  lemma {:induction false} SamplesOfAt(nodes: seq<Node>, policy: Policy, entries: nat, ids: seq<nat>, i: nat)
    requires InGraph(nodes, ids) && i < |ids|
    ensures SamplesOf(nodes, policy, entries, ids)[i] + i + 1 ==
      entries + |EnqueuedFor(nodes, policy, ids[..i])|
    decreases |ids|
  {
    var init := ids[..|ids| - 1];
    assert InGraph(nodes, init);
    if i < |init| {
      SamplesOfAt(nodes, policy, entries, init, i);
      assert init[..i] == ids[..i];
    } else {
      assert init == ids[..i];
    }
  }

  /** Each sample is the queue length right after its dequeue. */
  ghost predicate Sampled(nodes: seq<Node>, entryPoints: seq<nat>, policy: Policy, s: State) {
    InGraph(nodes, s.dequeued) && s.samples == SamplesOf(nodes, policy, |entryPoints|, s.dequeued)
  }

  /** The history of a run that stopped at its last dequeued project. */
  ghost predicate Terminal(nodes: seq<Node>, d: seq<nat>, o: Outcome) {
    d != [] && InGraph(nodes, d) &&
    NoneClassified(nodes, d[..|d| - 1]) &&
    IsWebAssembly(nodes, d[|d| - 1]) &&
    o == Classify(LastAspNetCore(nodes, d[..|d| - 1]), d[|d| - 1])
  }

  /** What a finished run reports, and why. */
  ghost predicate Sound(nodes: seq<Node>, entryPoints: seq<nat>, policy: Policy, f: Finish) {
    Consistent(nodes, entryPoints, policy, f.final) && Reaching(nodes, entryPoints, f.final) &&
    Sampled(nodes, entryPoints, policy, f.final) &&
    match f.outcome
    case Unknown(m, c) =>
      f.final.queue == [] && Explored(nodes, policy, f.final) &&
      m == f.final.maxQueueSize && c == f.final.countProcessed
    case _ =>
      Terminal(nodes, f.final.dequeued, f.outcome) &&
      ExploredBy(nodes, policy, f.final.dequeued[..|f.final.dequeued| - 1], f.final.enqueued)
  }

  lemma InitConsistent(nodes: seq<Node>, entryPoints: seq<nat>, policy: Policy)
    requires ValidGraph(nodes, entryPoints)
    ensures Consistent(nodes, entryPoints, policy, Init(entryPoints))
    ensures Reaching(nodes, entryPoints, Init(entryPoints)) && Explored(nodes, policy, Init(entryPoints))
    ensures Sampled(nodes, entryPoints, policy, Init(entryPoints))
  {
    assert entryPoints + [] == [] + entryPoints;
  }

  lemma NoDupAppend(a: seq<nat>, b: seq<nat>)
    requires NoDup(a) && NoDup(b)
    requires forall x :: x in b ==> x !in a
    ensures NoDup(a + b)
  {
    forall i, j | 0 <= i < j < |a + b| ensures (a + b)[i] != (a + b)[j] {
      if j >= |a| && i < |a| {
        assert (a + b)[j] == b[j - |a|] && (a + b)[j] in b;
        assert (a + b)[i] == a[i] && (a + b)[i] in a;
      }
    }
  }

  lemma DequeueFifo(entryPoints: seq<nat>, s: State)
    requires Fifo(entryPoints, s) && s.queue != []
    ensures Fifo(entryPoints, Dequeue(s))
  {
    var t := Dequeue(s);
    assert s.queue == [s.queue[0]] + t.queue;
    assert t.dequeued + t.queue == s.dequeued + ([s.queue[0]] + t.queue);
  }

  lemma DequeueDiagnostics(s: State)
    requires DiagnosticsTracked(s) && s.queue != []
    ensures DiagnosticsTracked(Dequeue(s))
  {
    var t := Dequeue(s);
    assert t.samples[..|t.samples| - 1] == s.samples;
  }

  lemma DequeueHost(nodes: seq<Node>, s: State)
    requires HostTracked(nodes, s) && s.queue != [] && s.queue[0] < |nodes|
    ensures var t := Dequeue(s);
      HostTracked(nodes, t.(host := if IsAspNetCore(nodes, s.queue[0]) then Some(s.queue[0]) else s.host))
  {
    var t := Dequeue(s);
    assert t.dequeued[..|t.dequeued| - 1] == s.dequeued;
  }

  /** The dequeue half of a step keeps the invariant and records the dequeued project. */
  lemma DequeueConsistent(nodes: seq<Node>, entryPoints: seq<nat>, policy: Policy, s: State)
    requires Consistent(nodes, entryPoints, policy, s) && s.queue != []
    ensures s.queue[0] < |nodes|
    ensures var t := Dequeue(s);
      Consistent(nodes, entryPoints, policy,
        t.(host := if IsAspNetCore(nodes, s.queue[0]) then Some(s.queue[0]) else s.host))
  {
    assert s.queue[0] in s.queue;
    var t := Dequeue(s);
    assert forall x :: x in t.queue ==> x in s.queue;
    DequeueFifo(entryPoints, s);
    DequeueDiagnostics(s);
    DequeueHost(nodes, s);
  }

  /** One step keeps the invariant; a step that stops ends the history at a
      `WebAssembly` project and reports the profile of that project. */
  lemma StepConsistent(nodes: seq<Node>, entryPoints: seq<nat>, policy: Policy, s: State)
    requires Consistent(nodes, entryPoints, policy, s) && NoneClassified(nodes, s.dequeued)
    requires s.queue != []
    ensures match Step(nodes, policy, s)
      case Continue(t) => Consistent(nodes, entryPoints, policy, t) && NoneClassified(nodes, t.dequeued)
      case Stop(o, t) => Consistent(nodes, entryPoints, policy, t) && Terminal(nodes, t.dequeued, o)
  {
    var n := s.queue[0];
    DequeueConsistent(nodes, entryPoints, policy, s);
    var t := Dequeue(s);
    var h := t.(host := if IsAspNetCore(nodes, n) then Some(n) else s.host);
    assert t.dequeued[..|t.dequeued| - 1] == s.dequeued;
    match FirstMatch(nodes[n].caps)
    case WebAssembly =>
      assert h == t;
    case AspNetCore =>
      ExpandChangesFrontier(nodes, policy, n, h);
      ExpandConsistent(nodes, entryPoints, policy, n, h);
    case NoMatch =>
      assert h == t;
      ExpandChangesFrontier(nodes, policy, n, t);
      ExpandConsistent(nodes, entryPoints, policy, n, t);
  }

  lemma ExpandFifo(entryPoints: seq<nat>, t: State, added: seq<nat>, r: State)
    requires Fifo(entryPoints, t)
    requires r.queue == t.queue + added && r.enqueued == t.enqueued + added && r.dequeued == t.dequeued
    ensures Fifo(entryPoints, r)
  {
    assert entryPoints + r.enqueued == (entryPoints + t.enqueued) + added;
    assert r.dequeued + r.queue == (t.dequeued + t.queue) + added;
  }

  lemma ExpandVisited(t: State, added: seq<nat>, r: State)
    requires VisitedTracked(Memoized, t)
    requires r.enqueued == t.enqueued + added && r.visited == t.visited + Elems(added)
    requires NoDup(added) && forall x :: x in added ==> x !in t.visited
    ensures VisitedTracked(Memoized, r)
  {
    NoDupAppend(t.enqueued, added);
  }

  /** Enqueueing a project's references keeps the invariant. */
  lemma ExpandConsistent(nodes: seq<Node>, entryPoints: seq<nat>, policy: Policy, n: nat, t: State)
    requires Consistent(nodes, entryPoints, policy, t) && n < |nodes|
    ensures Consistent(nodes, entryPoints, policy, Expand(nodes, policy, n, t))
  {
    assert nodes[n] in nodes;
    ExpandChangesFrontier(nodes, policy, n, t);
    var r := Expand(nodes, policy, n, t);
    match policy
    case Naive =>
      ExpandFifo(entryPoints, t, nodes[n].refs, r);
    case Memoized =>
      EnqueueNewAddsUnvisited(nodes[n].refs, t);
      var added := r.queue[|t.queue|..];
      assert r.queue == t.queue + added;
      ExpandFifo(entryPoints, t, added, r);
      ExpandVisited(t, added, r);
  }

  /** How one pass extends the histories: the dequeued project is recorded,
      and the references enqueued are references of that project, all of
      them (in order, for the naive loop) when the pass continues. */
  lemma StepEnqueues(nodes: seq<Node>, policy: Policy, s: State)
    requires StateOk(nodes, s) && s.queue != [] && s.queue[0] < |nodes| && VisitedTracked(policy, s)
    ensures var r := Step(nodes, policy, s); var n := s.queue[0];
      (r.Stop? ==> r.last.enqueued == s.enqueued && r.last.dequeued == s.dequeued + [n]) &&
      (r.Continue? ==>
        r.next.dequeued == s.dequeued + [n] &&
        |r.next.enqueued| >= |s.enqueued| && r.next.enqueued[..|s.enqueued|] == s.enqueued &&
        (forall x :: x in r.next.enqueued[|s.enqueued|..] ==> x in nodes[n].refs) &&
        (forall x :: x in nodes[n].refs ==> x in r.next.enqueued) &&
        (policy == Naive ==> r.next.enqueued == s.enqueued + nodes[n].refs) &&
        (policy == Memoized ==> r.next.enqueued == s.enqueued + Unseen(s.visited, nodes[n].refs)))
  {
    var n := s.queue[0];
    assert n in s.queue;
    var t := Dequeue(s);
    var h := if FirstMatch(nodes[n].caps) == AspNetCore then t.(host := Some(n)) else t;
    ExpandChangesFrontier(nodes, policy, n, h);
    if policy == Memoized {
      EnqueueNewAddsUnvisited(nodes[n].refs, h);
      var r := EnqueueNew(nodes[n].refs, h);
      var added := r.queue[|s.queue| - 1..];
      assert r.enqueued == s.enqueued + added;
      assert r.enqueued[|s.enqueued|..] == added;
      forall x | x in nodes[n].refs ensures x in r.enqueued {
        assert x in r.visited;
        if x in s.visited {
          assert x in s.enqueued;
        } else {
          assert x in added;
        }
      }
    } else {
      assert (s.enqueued + nodes[n].refs)[|s.enqueued|..] == nodes[n].refs;
    }
  }

  /** One pass keeps every enqueued project reachable. */
  lemma StepReaching(nodes: seq<Node>, entryPoints: seq<nat>, policy: Policy, s: State)
    requires Consistent(nodes, entryPoints, policy, s) && Reaching(nodes, entryPoints, s) && s.queue != []
    ensures match Step(nodes, policy, s)
      case Continue(t) => Reaching(nodes, entryPoints, t)
      case Stop(_, t) => Reaching(nodes, entryPoints, t)
  {
    var n := s.queue[0];
    assert n in s.queue && n in s.dequeued + s.queue;
    assert n in entryPoints || n in s.enqueued;
    if n in entryPoints {
      EntryReachable(nodes, entryPoints, n);
    }
    assert n < |nodes|;
    StepEnqueues(nodes, policy, s);
    var r := Step(nodes, policy, s);
    if r.Continue? {
      var e := r.next.enqueued;
      assert e == s.enqueued + e[|s.enqueued|..];
      forall x | x in e ensures Reachable(nodes, entryPoints, x) {
        if x !in s.enqueued {
          assert x in e[|s.enqueued|..];
          assert nodes[n] in nodes;
          ReferenceReachable(nodes, entryPoints, n, x);
        }
      }
    }
  }

  /** A pass that continues keeps the `Explored` facts. */
  lemma StepExplored(nodes: seq<Node>, entryPoints: seq<nat>, policy: Policy, s: State)
    requires Consistent(nodes, entryPoints, policy, s) && Explored(nodes, policy, s) && s.queue != []
    ensures var r := Step(nodes, policy, s); r.Continue? ==> Explored(nodes, policy, r.next)
  {
    var n := s.queue[0];
    assert n in s.queue;
    assert n < |nodes|;
    StepEnqueues(nodes, policy, s);
    var r := Step(nodes, policy, s);
    if r.Continue? {
      var t := r.next;
      assert t.dequeued[..|s.dequeued|] == s.dequeued;
      assert !IsWebAssembly(nodes, n);
      assert t.enqueued == s.enqueued + t.enqueued[|s.enqueued|..];
      assert Closed(nodes, t.dequeued, t.enqueued);
      if policy == Naive {
        assert RefsOf(nodes, t.dequeued) == RefsOf(nodes, s.dequeued) + nodes[n].refs;
      } else {
        assert MemoRefsOf(nodes, t.dequeued) ==
          MemoRefsOf(nodes, s.dequeued) + Unseen(Elems(s.enqueued), nodes[n].refs);
      }
    }
  }

  /** One pass appends the queue length right after its dequeue to the samples. */
  lemma StepSamples(nodes: seq<Node>, policy: Policy, s: State)
    requires StateOk(nodes, s) && s.queue != [] && s.queue[0] < |nodes|
    ensures var r := Step(nodes, policy, s);
      (r.Continue? ==> r.next.samples == s.samples + [|s.queue| - 1]) &&
      (r.Stop? ==> r.last.samples == s.samples + [|s.queue| - 1])
  {
    var n := s.queue[0];
    var t := Dequeue(s);
    var h := if FirstMatch(nodes[n].caps) == AspNetCore then t.(host := Some(n)) else t;
    ExpandChangesFrontier(nodes, policy, n, h);
  }

  /** One pass samples the queue length right after its dequeue. */
  lemma StepSampled(nodes: seq<Node>, entryPoints: seq<nat>, policy: Policy, s: State)
    requires StateOk(nodes, s) && Fifo(entryPoints, s) && VisitedTracked(policy, s) && DiagnosticsTracked(s)
    requires Explored(nodes, policy, s) && Sampled(nodes, entryPoints, policy, s) && s.queue != []
    ensures match Step(nodes, policy, s)
      case Continue(t) => Sampled(nodes, entryPoints, policy, t)
      case Stop(_, t) => Sampled(nodes, entryPoints, policy, t)
  {
    var n := s.queue[0];
    assert n in s.queue;
    StepEnqueues(nodes, policy, s);
    StepSamples(nodes, policy, s);
    var r := Step(nodes, policy, s);
    var u := if r.Continue? then r.next else r.last;
    assert |entryPoints + s.enqueued| == |s.dequeued + s.queue|;
    assert InGraph(nodes, u.dequeued);
    assert u.dequeued[..|u.dequeued| - 1] == s.dequeued;
  }

  /** A run that ends because the queue is empty is sound. */
  lemma EmptySound(nodes: seq<Node>, entryPoints: seq<nat>, policy: Policy, s: State)
    requires Invariant(nodes, entryPoints, policy, s)
    requires s.queue == []
    ensures Sound(nodes, entryPoints, policy, Finish(Unknown(s.maxQueueSize, s.countProcessed), s))
  {
  }

  /** A run that ends at a `WebAssembly` project is sound. */
  lemma StopSound(nodes: seq<Node>, entryPoints: seq<nat>, policy: Policy, s: State)
    requires Invariant(nodes, entryPoints, policy, s)
    requires s.queue != [] && Step(nodes, policy, s).Stop?
    ensures var r := Step(nodes, policy, s); Sound(nodes, entryPoints, policy, Finish(r.outcome, r.last))
  {
    StepConsistent(nodes, entryPoints, policy, s);
    StepReaching(nodes, entryPoints, policy, s);
    StepSampled(nodes, entryPoints, policy, s);
    var n := s.queue[0];
    assert n in s.queue;
    StepEnqueues(nodes, policy, s);
    var d := Step(nodes, policy, s).last.dequeued;
    assert d[..|d| - 1] == s.dequeued;
  }

  /** Everything a run keeps between passes. */
  ghost predicate Invariant(nodes: seq<Node>, entryPoints: seq<nat>, policy: Policy, s: State) {
    Consistent(nodes, entryPoints, policy, s) && Reaching(nodes, entryPoints, s) &&
    Explored(nodes, policy, s) && Sampled(nodes, entryPoints, policy, s)
  }

  /** A pass that continues keeps `Invariant`. */
  lemma StepInvariant(nodes: seq<Node>, entryPoints: seq<nat>, policy: Policy, s: State)
    requires Invariant(nodes, entryPoints, policy, s) && s.queue != []
    ensures var r := Step(nodes, policy, s); r.Continue? ==> Invariant(nodes, entryPoints, policy, r.next)
  {
    StepConsistent(nodes, entryPoints, policy, s);
    StepReaching(nodes, entryPoints, policy, s);
    StepExplored(nodes, entryPoints, policy, s);
    StepSampled(nodes, entryPoints, policy, s);
  }

  /** Every finished memoized run is sound. */
  lemma {:induction false} RunMemoSound(nodes: seq<Node>, entryPoints: seq<nat>, s: State)
    requires Invariant(nodes, entryPoints, Memoized, s)
    ensures Sound(nodes, entryPoints, Memoized, RunMemo(nodes, s))
    decreases Ids(|nodes|) - s.visited, |s.queue|
  {
    if s.queue == [] {
      EmptySound(nodes, entryPoints, Memoized, s);
    } else {
      var r := Step(nodes, Memoized, s);
      StepKeepsStateOk(nodes, Memoized, s);
      if r.Continue? {
        RunMemoContinues(nodes, s, r.next);
        StepInvariant(nodes, entryPoints, Memoized, s);
        assert Ids(|nodes|) - r.next.visited <= Ids(|nodes|) - s.visited;
        RunMemoSound(nodes, entryPoints, r.next);
      } else {
        StopSound(nodes, entryPoints, Memoized, s);
      }
    }
  }

  /** A naive run whose queue is empty is sound. */
  lemma NaiveEmptySound(nodes: seq<Node>, entryPoints: seq<nat>, s: State, fuel: nat, f: Finish)
    requires Invariant(nodes, entryPoints, Naive, s) && s.queue == []
    requires RunNaive(nodes, s, fuel) == Some(f)
    ensures Sound(nodes, entryPoints, Naive, f)
  {
    EmptySound(nodes, entryPoints, Naive, s);
  }

  /** A naive run that stops in its first pass is sound. */
  lemma NaiveStopSound(nodes: seq<Node>, entryPoints: seq<nat>, s: State, fuel: nat, f: Finish)
    requires Invariant(nodes, entryPoints, Naive, s) && s.queue != []
    requires Step(nodes, Naive, s).Stop? && RunNaive(nodes, s, fuel) == Some(f)
    ensures Sound(nodes, entryPoints, Naive, f)
  {
    StepKeepsStateOk(nodes, Naive, s);
    StopSound(nodes, entryPoints, Naive, s);
  }

  /** A naive pass that continues keeps `Invariant` and the run's result, at
      one dequeue less of budget. */
  lemma NaiveContinueKeeps(nodes: seq<Node>, entryPoints: seq<nat>, s: State, fuel: nat, t: State)
    requires Invariant(nodes, entryPoints, Naive, s) && s.queue != []
    requires Step(nodes, Naive, s) == Continue(t) && RunNaive(nodes, s, fuel).Some?
    ensures fuel > 0 && Invariant(nodes, entryPoints, Naive, t)
    ensures StateOk(nodes, t) && RunNaive(nodes, s, fuel) == RunNaive(nodes, t, fuel - 1)
  {
    assert fuel > 0;
    RunNaiveContinues(nodes, s, t, fuel);
    StepInvariant(nodes, entryPoints, Naive, s);
  }

  /** Every naive run that finishes within its budget is sound. */
  lemma {:induction false} RunNaiveSound(nodes: seq<Node>, entryPoints: seq<nat>, s: State, fuel: nat, f: Finish)
    requires Invariant(nodes, entryPoints, Naive, s)
    requires RunNaive(nodes, s, fuel) == Some(f)
    ensures Sound(nodes, entryPoints, Naive, f)
    decreases fuel
  {
    if s.queue == [] {
      NaiveEmptySound(nodes, entryPoints, s, fuel, f);
    } else if Step(nodes, Naive, s).Stop? {
      NaiveStopSound(nodes, entryPoints, s, fuel, f);
    } else {
      var t := Step(nodes, Naive, s).next;
      NaiveContinueKeeps(nodes, entryPoints, s, fuel, t);
      RunNaiveSound(nodes, entryPoints, t, fuel - 1, f);
    }
  }
}
