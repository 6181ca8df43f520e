/** The breadth-first traversal shared by both classifiers, as a state
    machine: one `Step` is one iteration of the `while (queue.Count > 0)`
    loop, and the two runs differ only in how a dequeued project's
    references are enqueued (unconditionally, or only when `visited.Add`
    succeeds). */
module Traversal {
  import opened ProjectGraph
  import opened Capabilities

  datatype Option<T> = None | Some(value: T)

  /** What a run reports: the profile line it prints, or, when the queue
      empties first, the diagnostics line. */
  datatype Outcome =
    | BlazorHosted(host: nat, wasm: nat)
    | BlazorWebAssembly
    | Unknown(maxQueueSize: nat, countProcessed: nat)

  /** `InferHotReloadProfile` enqueues every reference; `InferHotReloadProfileOptimized` only unvisited ones. */
  datatype Policy = Naive | Memoized

  /** The locals of a run (`queue`, `aspnetCoreProject`, `visited`,
      `maxQueueSize`, `countProcessed`), followed by three records of its
      history that only the specification reads: the projects dequeued so
      far, the queue length sampled after each dequeue, and the projects
      enqueued as references, all in order. */
  datatype State = State(
    queue: seq<nat>,
    host: Option<nat>,
    visited: set<nat>,
    maxQueueSize: nat,
    countProcessed: nat,
    dequeued: seq<nat>,
    samples: seq<nat>,
    enqueued: seq<nat>)

  datatype StepResult = Continue(next: State) | Stop(outcome: Outcome, last: State)

  datatype Finish = Finish(outcome: Outcome, final: State)

  /** The state before the loop: the queue holds the entry points, nothing is visited. */
  function Init(entryPoints: seq<nat>): State {
    State(entryPoints, None, {}, 0, 0, [], [], [])
  }

  /** Every identity the state holds names a node, and references are valid. */
  ghost predicate StateOk(nodes: seq<Node>, s: State) {
    RefsInGraph(nodes) &&
    (forall x :: x in s.queue ==> x < |nodes|) &&
    (forall x :: x in s.visited ==> x < |nodes|)
  }

  function Max(a: nat, b: nat): nat {
    if a < b then b else a
  }

  /** The largest sample, 0 when there is none (the initial `maxQueueSize`). */
  function MaxOf(xs: seq<nat>): nat {
    if xs == [] then 0 else Max(MaxOf(xs[..|xs| - 1]), xs[|xs| - 1])
  }

  /** `MaxOf` is an upper bound of the samples and is one of them (0 when there are none). */
  lemma {:induction false} MaxOfIsMaximum(xs: seq<nat>)
    ensures forall i :: 0 <= i < |xs| ==> xs[i] <= MaxOf(xs)
    ensures xs == [] ==> MaxOf(xs) == 0
    ensures xs != [] ==> MaxOf(xs) in xs
  {
    if xs != [] {
      var init := xs[..|xs| - 1];
      assert forall i :: 0 <= i < |xs| - 1 ==> xs[i] == init[i];
      MaxOfIsMaximum(init);
    }
  }

  /** The profile decided at a project whose scan ends on `WebAssembly`. */
  function Classify(host: Option<nat>, wasm: nat): Outcome {
    if host.Some? && host.value != wasm then BlazorHosted(host.value, wasm)
    else BlazorWebAssembly
  }

  /** Dequeue the head, then sample the queue length and count the project. */
  function Dequeue(s: State): State
    requires s.queue != []
  {
    var rest := s.queue[1..];
    s.(queue := rest,
       maxQueueSize := Max(s.maxQueueSize, |rest|),
       countProcessed := s.countProcessed + 1,
       dequeued := s.dequeued + [s.queue[0]],
       samples := s.samples + [|rest|])
  }

  /** The naive `foreach`: every reference is enqueued. */
  function EnqueueAll(refs: seq<nat>, s: State): State {
    s.(queue := s.queue + refs, enqueued := s.enqueued + refs)
  }

  /** The memoized `foreach`: a reference is enqueued only when it is not yet
      visited, and it becomes visited. */
  function EnqueueNew(refs: seq<nat>, s: State): State
    decreases refs
  {
    if refs == [] then s
    else EnqueueNew(refs[1..], AddIfNew(refs[0], s))
  }

  /** `visited.Add(x)` followed, when it succeeds, by `queue.Enqueue(x)`. */
  function AddIfNew(x: nat, s: State): State {
    if x in s.visited then s
    else s.(queue := s.queue + [x], visited := s.visited + {x}, enqueued := s.enqueued + [x])
  }

  /** The references `visited.Add` accepts, in order, when `seen` holds
      what was visited before. */
  function Unseen(seen: set<nat>, refs: seq<nat>): seq<nat>
    decreases refs
  {
    if refs == [] then []
    else if refs[0] in seen then Unseen(seen, refs[1..])
    else [refs[0]] + Unseen(seen + {refs[0]}, refs[1..])
  }

  /** The memoized `foreach` appends `Unseen` of the references to the
      queue and to the enqueued history, and adds it to `visited`. */
  lemma {:induction false} EnqueueNewIsUnseen(refs: seq<nat>, s: State)
    ensures var u := Unseen(s.visited, refs);
      EnqueueNew(refs, s) ==
        s.(queue := s.queue + u, visited := s.visited + Elems(u), enqueued := s.enqueued + u)
    decreases refs
  {
    if refs != [] {
      var s1 := AddIfNew(refs[0], s);
      EnqueueNewIsUnseen(refs[1..], s1);
      if refs[0] !in s.visited {
        var u1 := Unseen(s1.visited, refs[1..]);
        assert s.queue + ([refs[0]] + u1) == s1.queue + u1;
        assert s.enqueued + ([refs[0]] + u1) == s1.enqueued + u1;
        assert Elems([refs[0]] + u1) == {refs[0]} + Elems(u1);
      }
    }
  }

  /** `Unseen` keeps only references outside `seen`, each once, and together
      with `seen` it covers every reference. */
  lemma {:induction false} UnseenIsNew(seen: set<nat>, refs: seq<nat>)
    ensures var u := Unseen(seen, refs);
      (forall x :: x in u ==> x in refs && x !in seen) &&
      NoDup(u) && Elems(refs) <= seen + Elems(u)
    decreases refs
  {
    if refs != [] {
      var x := refs[0];
      if x in seen {
        UnseenIsNew(seen, refs[1..]);
      } else {
        var u1 := Unseen(seen + {x}, refs[1..]);
        UnseenIsNew(seen + {x}, refs[1..]);
        var u := [x] + u1;
        forall i, j | 0 <= i < j < |u| ensures u[i] != u[j] {
          if i == 0 {
            assert u[j] == u1[j - 1] && u1[j - 1] in u1;
          } else {
            assert u[i] == u1[i - 1] && u[j] == u1[j - 1];
          }
        }
      }
    }
  }

  /** What the memoized `foreach` adds to the queue: references not visited
      before, each once and in order, all of them then visited; nothing else
      changes. */
  lemma EnqueueNewAddsUnvisited(refs: seq<nat>, s: State)
    ensures var t := EnqueueNew(refs, s);
      |t.queue| >= |s.queue| && t.queue[..|s.queue|] == s.queue &&
      t.queue[|s.queue|..] == Unseen(s.visited, refs) &&
      t.enqueued == s.enqueued + t.queue[|s.queue|..] &&
      t.visited == s.visited + Elems(t.queue[|s.queue|..]) &&
      Elems(refs) <= t.visited &&
      (forall x :: x in t.queue[|s.queue|..] ==> x in refs && x !in s.visited) &&
      NoDup(t.queue[|s.queue|..]) &&
      t.(queue := s.queue, visited := s.visited, enqueued := s.enqueued) == s
  {
    EnqueueNewIsUnseen(refs, s);
    UnseenIsNew(s.visited, refs);
    var t := EnqueueNew(refs, s);
    assert t.queue[..|s.queue|] == s.queue;
    assert t.queue[|s.queue|..] == Unseen(s.visited, refs);
  }

  /** One pass of the loop body. */
  function Step(nodes: seq<Node>, policy: Policy, s: State): StepResult
    requires StateOk(nodes, s) && s.queue != []
  {
    var n := s.queue[0];
    assert n in s.queue;
    var t := Dequeue(s);
    match FirstMatch(nodes[n].caps)
    case WebAssembly => Stop(Classify(s.host, n), t)
    case AspNetCore => Continue(Expand(nodes, policy, n, t.(host := Some(n))))
    case NoMatch => Continue(Expand(nodes, policy, n, t))
  }

  /** The `foreach` over the dequeued project's references. */
  function Expand(nodes: seq<Node>, policy: Policy, n: nat, t: State): State
    requires n < |nodes|
  {
    match policy
    case Naive => EnqueueAll(nodes[n].refs, t)
    case Memoized => EnqueueNew(nodes[n].refs, t)
  }

  /** Enqueueing changes only the queue, `visited` and the record of what
      was enqueued, and adds only references; the memoized `foreach` adds to
      the queue only when it adds to `visited`. */
  lemma ExpandChangesFrontier(nodes: seq<Node>, policy: Policy, n: nat, t: State)
    requires n < |nodes|
    ensures var r := Expand(nodes, policy, n, t);
      r.(queue := t.queue, visited := t.visited, enqueued := t.enqueued) == t &&
      (forall x :: x in r.queue ==> x in t.queue || x in nodes[n].refs) &&
      (forall x :: x in r.visited ==> x in t.visited || x in nodes[n].refs) &&
      (policy == Naive ==> r.visited == t.visited) &&
      (policy == Memoized ==>
        t.visited <= r.visited && (r.visited == t.visited ==> |r.queue| == |t.queue|))
  {
    if policy == Memoized {
      EnqueueNewAddsUnvisited(nodes[n].refs, t);
      var r := EnqueueNew(nodes[n].refs, t);
      assert r.queue == t.queue + r.queue[|t.queue|..];
      if r.queue[|t.queue|..] != [] {
        assert r.queue[|t.queue|..][0] !in t.visited;
      }
    }
  }

  /** A step that continues keeps every identity inside the graph; a
      memoized step either visits a new project or shortens the queue. */
  lemma StepKeepsStateOk(nodes: seq<Node>, policy: Policy, s: State)
    requires StateOk(nodes, s) && s.queue != []
    ensures var r := Step(nodes, policy, s);
      (r.Continue? ==> StateOk(nodes, r.next)) &&
      (r.Continue? && policy == Naive ==> r.next.visited == s.visited) &&
      (r.Continue? && policy == Memoized ==>
        s.visited <= r.next.visited && (r.next.visited == s.visited ==> |r.next.queue| < |s.queue|))
  {
    var n := s.queue[0];
    assert n in s.queue;
    assert nodes[n] in nodes;
    var t := Dequeue(s);
    assert forall x :: x in t.queue ==> x in s.queue;
    ExpandChangesFrontier(nodes, policy, n, t);
    ExpandChangesFrontier(nodes, policy, n, t.(host := Some(n)));
  }

  /** What one pass does, by the first matching capability of the dequeued
      project `n`: `WebAssembly` ends the run with the profile of the current
      candidate host; `AspNetCore` makes `n` the candidate host, overwriting
      any earlier one; either way but the first, the rest of the queue is kept
      and `n`'s references are appended (all of them, or the unvisited ones). */
  lemma StepEffect(nodes: seq<Node>, policy: Policy, s: State)
    requires StateOk(nodes, s) && s.queue != [] && s.queue[0] < |nodes|
    ensures var n := s.queue[0]; var m := FirstMatch(nodes[n].caps);
      var r := Step(nodes, policy, s); var k := |s.queue| - 1;
      (r.Stop? <==> m == WebAssembly) &&
      (r.Stop? ==> r.outcome == Classify(s.host, n) && r.last.queue == s.queue[1..]) &&
      (r.Continue? ==>
        r.next.host == (if m == AspNetCore then Some(n) else s.host) &&
        r.next.countProcessed == s.countProcessed + 1 &&
        r.next.maxQueueSize == Max(s.maxQueueSize, k) &&
        |r.next.queue| >= k && r.next.queue[..k] == s.queue[1..] &&
        (policy == Naive ==> r.next.queue == s.queue[1..] + nodes[n].refs) &&
        (policy == Memoized ==>
          (forall x :: x in r.next.queue[k..] ==> x in nodes[n].refs && x !in s.visited) &&
          (forall x :: x in nodes[n].refs ==> x in r.next.visited)))
  {
    var n := s.queue[0];
    var t := Dequeue(s);
    var h := if FirstMatch(nodes[n].caps) == AspNetCore then t.(host := Some(n)) else t;
    if policy == Memoized {
      EnqueueNewAddsUnvisited(nodes[n].refs, h);
    }
  }

  /** The naive loop, given a budget of `fuel` dequeues; `None` when the budget runs out. */
  function RunNaive(nodes: seq<Node>, s: State, fuel: nat): Option<Finish>
    requires StateOk(nodes, s)
    decreases fuel
  {
    if s.queue == [] then Some(Finish(Unknown(s.maxQueueSize, s.countProcessed), s))
    else if fuel == 0 then None
    else
      StepKeepsStateOk(nodes, Naive, s);
      match Step(nodes, Naive, s)
      case Stop(o, t) => Some(Finish(o, t))
      case Continue(t) => RunNaive(nodes, t, fuel - 1)
  }

  /** The memoized loop; it ends because every step either visits a new
      node or shortens the queue. */
  function RunMemo(nodes: seq<Node>, s: State): Finish
    requires StateOk(nodes, s)
    decreases Ids(|nodes|) - s.visited, |s.queue|
  {
    if s.queue == [] then Finish(Unknown(s.maxQueueSize, s.countProcessed), s)
    else
      StepKeepsStateOk(nodes, Memoized, s);
      match Step(nodes, Memoized, s)
      case Stop(o, t) => Finish(o, t)
      case Continue(t) =>
        assert Ids(|nodes|) - t.visited <= Ids(|nodes|) - s.visited;
        RunMemo(nodes, t)
  }

  /** A step that continues leaves the outcome of the memoized run unchanged. */
  lemma RunMemoContinues(nodes: seq<Node>, s: State, t: State)
    requires StateOk(nodes, s) && s.queue != []
    requires Step(nodes, Memoized, s) == Continue(t)
    ensures StateOk(nodes, t) && RunMemo(nodes, s) == RunMemo(nodes, t)
    ensures s.visited <= t.visited && (t.visited == s.visited ==> |t.queue| < |s.queue|)
  {
    StepKeepsStateOk(nodes, Memoized, s);
  }

  /** At a project whose scan ends on `WebAssembly` the memoized run ends with its profile. */
  lemma RunMemoStops(nodes: seq<Node>, s: State)
    requires StateOk(nodes, s) && s.queue != [] && s.queue[0] < |nodes|
    requires FirstMatch(nodes[s.queue[0]].caps) == WebAssembly
    ensures RunMemo(nodes, s) == Finish(Classify(s.host, s.queue[0]), Dequeue(s))
  {
  }

  /** A step that continues leaves the outcome of the naive run unchanged, one dequeue later. */
  lemma RunNaiveContinues(nodes: seq<Node>, s: State, t: State, fuel: nat)
    requires StateOk(nodes, s) && s.queue != [] && fuel > 0
    requires Step(nodes, Naive, s) == Continue(t)
    ensures StateOk(nodes, t) && t.visited == s.visited && RunNaive(nodes, s, fuel) == RunNaive(nodes, t, fuel - 1)
  {
    StepKeepsStateOk(nodes, Naive, s);
  }

  /** At a project whose scan ends on `WebAssembly` the naive run ends with its profile. */
  lemma RunNaiveStops(nodes: seq<Node>, s: State, fuel: nat)
    requires StateOk(nodes, s) && s.queue != [] && s.queue[0] < |nodes| && fuel > 0
    requires FirstMatch(nodes[s.queue[0]].caps) == WebAssembly
    ensures RunNaive(nodes, s, fuel) == Some(Finish(Classify(s.host, s.queue[0]), Dequeue(s)))
  {
  }
}
