/** Small graphs on which the two classifiers are run to the end. Project
    `A` is node 0, `B` node 1, and so on. */
module Scenarios {
  import opened ProjectGraph
  import opened Capabilities
  import opened Traversal

  /** A -> B -> A, no capabilities. */
  function Cycle(): seq<Node> {
    [Node([], [1]), Node([], [0])]
  }

  /** A -> {B, C}, B -> D, C -> D, no capabilities. */
  function Diamond(): seq<Node> {
    [Node([], [1, 2]), Node([], [3]), Node([], [3]), Node([], [])]
  }

  /** On A -> B -> A the naive run never empties its queue, whatever the budget. */
  lemma {:induction false} NaiveLoopsOnCycle(s: State, fuel: nat)
    requires s.queue == [0] || s.queue == [1]
    requires s.visited == {}
    ensures StateOk(Cycle(), s) && RunNaive(Cycle(), s, fuel).None?
    decreases fuel
  {
    if fuel > 0 {
      var t := Step(Cycle(), Naive, s).next;
      assert t.queue == [1 - s.queue[0]];
      NaiveLoopsOnCycle(t, fuel - 1);
    }
  }

  /** On A -> B -> A the memoized run processes A, B and A again: the entry
      point is not marked visited, so reaching it through B enqueues it. */
  lemma MemoizedCycleRevisitsEntry()
    ensures ValidGraph(Cycle(), [0])
    ensures var f := RunMemo(Cycle(), Init([0]));
      f.outcome == Unknown(0, 3) && f.final.dequeued == [0, 1, 0]
  {
    var s0 := Init([0]);
    var s1 := Step(Cycle(), Memoized, s0).next;
    assert s1.queue == [1] && s1.visited == {1};
    var s2 := Step(Cycle(), Memoized, s1).next;
    assert s2.queue == [0] && s2.visited == {1, 0};
    var s3 := Step(Cycle(), Memoized, s2).next;
    assert s3.queue == [] && s3.dequeued == [0, 1, 0];
  }

  /** The states the naive run passes through on the diamond, from `A`. */
  function NaiveDiamondState(k: nat): State
    requires k <= 5
  {
    [Init([0]),
     State([1, 2], None, {}, 0, 1, [0], [0], [1, 2]),
     State([2, 3], None, {}, 1, 2, [0, 1], [0, 1], [1, 2, 3]),
     State([3, 3], None, {}, 1, 3, [0, 1, 2], [0, 1, 1], [1, 2, 3, 3]),
     State([3], None, {}, 1, 4, [0, 1, 2, 3], [0, 1, 1, 1], [1, 2, 3, 3]),
     State([], None, {}, 1, 5, [0, 1, 2, 3, 3], [0, 1, 1, 1, 0], [1, 2, 3, 3])][k]
  }

  /** The naive steps on the diamond, one state to the next. */
  lemma NaiveDiamondStep0()
    ensures StateOk(Diamond(), NaiveDiamondState(0)) && NaiveDiamondState(0).queue != []
    ensures Step(Diamond(), Naive, NaiveDiamondState(0)) == Continue(NaiveDiamondState(1))
  {
  }

  lemma NaiveDiamondStep1()
    ensures StateOk(Diamond(), NaiveDiamondState(1)) && NaiveDiamondState(1).queue != []
    ensures Step(Diamond(), Naive, NaiveDiamondState(1)) == Continue(NaiveDiamondState(2))
  {
  }

  lemma NaiveDiamondStep2()
    ensures StateOk(Diamond(), NaiveDiamondState(2)) && NaiveDiamondState(2).queue != []
    ensures Step(Diamond(), Naive, NaiveDiamondState(2)) == Continue(NaiveDiamondState(3))
  {
  }

  lemma NaiveDiamondStep3()
    ensures StateOk(Diamond(), NaiveDiamondState(3)) && NaiveDiamondState(3).queue != []
    ensures Step(Diamond(), Naive, NaiveDiamondState(3)) == Continue(NaiveDiamondState(4))
  {
  }

  lemma NaiveDiamondStep4()
    ensures StateOk(Diamond(), NaiveDiamondState(4)) && NaiveDiamondState(4).queue != []
    ensures Step(Diamond(), Naive, NaiveDiamondState(4)) == Continue(NaiveDiamondState(5))
  {
  }

  /** On the diamond the naive run processes D twice: five dequeues. */
  lemma NaiveDiamond()
    ensures ValidGraph(Diamond(), [0])
    ensures var r := RunNaive(Diamond(), Init([0]), 5);
      r.Some? && r.value.outcome == Unknown(1, 5) && r.value.final.dequeued == [0, 1, 2, 3, 3]
  {
    var g := Diamond();
    NaiveDiamondStep0();
    RunNaiveContinues(g, NaiveDiamondState(0), NaiveDiamondState(1), 5);
    NaiveDiamondStep1();
    RunNaiveContinues(g, NaiveDiamondState(1), NaiveDiamondState(2), 4);
    NaiveDiamondStep2();
    RunNaiveContinues(g, NaiveDiamondState(2), NaiveDiamondState(3), 3);
    NaiveDiamondStep3();
    RunNaiveContinues(g, NaiveDiamondState(3), NaiveDiamondState(4), 2);
    NaiveDiamondStep4();
    RunNaiveContinues(g, NaiveDiamondState(4), NaiveDiamondState(5), 1);
  }

  /** The states the memoized run passes through on the diamond, from `A`. */
  function MemoizedDiamondState(k: nat): State
    requires k <= 4
  {
    [Init([0]),
     State([1, 2], None, {1, 2}, 0, 1, [0], [0], [1, 2]),
     State([2, 3], None, {1, 2, 3}, 1, 2, [0, 1], [0, 1], [1, 2, 3]),
     State([3], None, {1, 2, 3}, 1, 3, [0, 1, 2], [0, 1, 1], [1, 2, 3]),
     State([], None, {1, 2, 3}, 1, 4, [0, 1, 2, 3], [0, 1, 1, 0], [1, 2, 3])][k]
  }

  /** The memoized steps on the diamond, one state to the next. */
  lemma MemoizedDiamondStep0()
    ensures StateOk(Diamond(), MemoizedDiamondState(0)) && MemoizedDiamondState(0).queue != []
    ensures Step(Diamond(), Memoized, MemoizedDiamondState(0)) == Continue(MemoizedDiamondState(1))
  {
  }

  lemma MemoizedDiamondStep1()
    ensures StateOk(Diamond(), MemoizedDiamondState(1)) && MemoizedDiamondState(1).queue != []
    ensures Step(Diamond(), Memoized, MemoizedDiamondState(1)) == Continue(MemoizedDiamondState(2))
  {
  }

  lemma MemoizedDiamondStep2()
    ensures StateOk(Diamond(), MemoizedDiamondState(2)) && MemoizedDiamondState(2).queue != []
    ensures Step(Diamond(), Memoized, MemoizedDiamondState(2)) == Continue(MemoizedDiamondState(3))
  {
  }

  lemma MemoizedDiamondStep3()
    ensures StateOk(Diamond(), MemoizedDiamondState(3)) && MemoizedDiamondState(3).queue != []
    ensures Step(Diamond(), Memoized, MemoizedDiamondState(3)) == Continue(MemoizedDiamondState(4))
  {
  }

  /** On the diamond the memoized run processes D once: four dequeues. */
  lemma MemoizedDiamond()
    ensures ValidGraph(Diamond(), [0])
    ensures var f := RunMemo(Diamond(), Init([0]));
      f.outcome == Unknown(1, 4) && f.final.dequeued == [0, 1, 2, 3]
  {
    var g := Diamond();
    MemoizedDiamondStep0();
    RunMemoContinues(g, MemoizedDiamondState(0), MemoizedDiamondState(1));
    MemoizedDiamondStep1();
    RunMemoContinues(g, MemoizedDiamondState(1), MemoizedDiamondState(2));
    MemoizedDiamondStep2();
    RunMemoContinues(g, MemoizedDiamondState(2), MemoizedDiamondState(3));
    MemoizedDiamondStep3();
    RunMemoContinues(g, MemoizedDiamondState(3), MemoizedDiamondState(4));
  }

  /** X -> {H1, H2}, H2 -> {H1, W}; H1 and H2 are `AspNetCore` projects and W
      a `WebAssembly` one. There is no cycle, yet the two classifiers name
      different hosts: the naive run meets H1 a second time, after H2. */
  function Hosts(): seq<Node> {
    [Node([], [1, 2]), Node(["AspNetCore"], []), Node(["AspNetCore"], [1, 3]), Node(["WebAssembly"], [])]
  }

  /** The first matching capability of each project of `Hosts`. */
  lemma HostsCapabilities()
    ensures FirstMatch(Hosts()[0].caps) == NoMatch && FirstMatch(Hosts()[1].caps) == AspNetCore
    ensures FirstMatch(Hosts()[2].caps) == AspNetCore && FirstMatch(Hosts()[3].caps) == WebAssembly
  {
  }

  /** The states the naive run passes through on `Hosts`, from X. */
  function NaiveHostsState(k: nat): State
    requires k <= 4
  {
    [Init([0]),
     State([1, 2], None, {}, 0, 1, [0], [0], [1, 2]),
     State([2], Some(1), {}, 1, 2, [0, 1], [0, 1], [1, 2]),
     State([1, 3], Some(2), {}, 1, 3, [0, 1, 2], [0, 1, 0], [1, 2, 1, 3]),
     State([3], Some(1), {}, 1, 4, [0, 1, 2, 1], [0, 1, 0, 1], [1, 2, 1, 3])][k]
  }

  /** The naive steps on `Hosts`, one state to the next. */
  lemma NaiveHostsStep0()
    ensures StateOk(Hosts(), NaiveHostsState(0)) && NaiveHostsState(0).queue != []
    ensures Step(Hosts(), Naive, NaiveHostsState(0)) == Continue(NaiveHostsState(1))
  {
    HostsCapabilities();
  }

  lemma NaiveHostsStep1()
    ensures StateOk(Hosts(), NaiveHostsState(1)) && NaiveHostsState(1).queue != []
    ensures Step(Hosts(), Naive, NaiveHostsState(1)) == Continue(NaiveHostsState(2))
  {
    HostsCapabilities();
  }

  lemma NaiveHostsStep2()
    ensures StateOk(Hosts(), NaiveHostsState(2)) && NaiveHostsState(2).queue != []
    ensures Step(Hosts(), Naive, NaiveHostsState(2)) == Continue(NaiveHostsState(3))
  {
    HostsCapabilities();
  }

  lemma NaiveHostsStep3()
    ensures StateOk(Hosts(), NaiveHostsState(3)) && NaiveHostsState(3).queue != []
    ensures Step(Hosts(), Naive, NaiveHostsState(3)) == Continue(NaiveHostsState(4))
  {
    HostsCapabilities();
  }

  /** The states the memoized run passes through on `Hosts`, from X. */
  function MemoizedHostsState(k: nat): State
    requires k <= 3
  {
    [Init([0]),
     State([1, 2], None, {1, 2}, 0, 1, [0], [0], [1, 2]),
     State([2], Some(1), {1, 2}, 1, 2, [0, 1], [0, 1], [1, 2]),
     State([3], Some(2), {1, 2, 3}, 1, 3, [0, 1, 2], [0, 1, 0], [1, 2, 3])][k]
  }

  /** The memoized steps on `Hosts`, one state to the next. */
  lemma MemoizedHostsStep0()
    ensures StateOk(Hosts(), MemoizedHostsState(0)) && MemoizedHostsState(0).queue != []
    ensures Step(Hosts(), Memoized, MemoizedHostsState(0)) == Continue(MemoizedHostsState(1))
  {
    HostsCapabilities();
  }

  lemma MemoizedHostsStep1()
    ensures StateOk(Hosts(), MemoizedHostsState(1)) && MemoizedHostsState(1).queue != []
    ensures Step(Hosts(), Memoized, MemoizedHostsState(1)) == Continue(MemoizedHostsState(2))
  {
    HostsCapabilities();
  }

  lemma MemoizedHostsStep2()
    ensures StateOk(Hosts(), MemoizedHostsState(2)) && MemoizedHostsState(2).queue != []
    ensures Step(Hosts(), Memoized, MemoizedHostsState(2)) == Continue(MemoizedHostsState(3))
  {
    HostsCapabilities();
  }

  /** The naive run reports H1 as the host of W, the memoized run H2. */
  lemma NaiveAndMemoizedDisagree()
    ensures ValidGraph(Hosts(), [0])
    ensures var r := RunNaive(Hosts(), Init([0]), 5);
      r.Some? && r.value.outcome == BlazorHosted(1, 3) && r.value.final.countProcessed == 5
    ensures var f := RunMemo(Hosts(), Init([0]));
      f.outcome == BlazorHosted(2, 3) && f.final.countProcessed == 4
  {
    var g := Hosts();
    NaiveHostsStep0();
    RunNaiveContinues(g, NaiveHostsState(0), NaiveHostsState(1), 5);
    NaiveHostsStep1();
    RunNaiveContinues(g, NaiveHostsState(1), NaiveHostsState(2), 4);
    NaiveHostsStep2();
    RunNaiveContinues(g, NaiveHostsState(2), NaiveHostsState(3), 3);
    NaiveHostsStep3();
    RunNaiveContinues(g, NaiveHostsState(3), NaiveHostsState(4), 2);
    HostsCapabilities();
    RunNaiveStops(g, NaiveHostsState(4), 1);
    MemoizedHostsStep0();
    RunMemoContinues(g, MemoizedHostsState(0), MemoizedHostsState(1));
    MemoizedHostsStep1();
    RunMemoContinues(g, MemoizedHostsState(1), MemoizedHostsState(2));
    MemoizedHostsStep2();
    RunMemoContinues(g, MemoizedHostsState(2), MemoizedHostsState(3));
    RunMemoStops(g, MemoizedHostsState(3));
  }

  /** A single project listing `AspNetCore` before `WebAssembly`: the scan
      stops at `AspNetCore`, so the run ends without a profile. */
  lemma AspNetCoreFirstNeverClassifies()
    ensures var g := [Node(["AspNetCore", "WebAssembly"], [])];
      ValidGraph(g, [0]) &&
      RunMemo(g, Init([0])).outcome == Unknown(0, 1) &&
      RunNaive(g, Init([0]), 1) == Some(RunMemo(g, Init([0])))
  {
    var g := [Node(["AspNetCore", "WebAssembly"], [])];
    assert FirstMatch(g[0].caps) == AspNetCore;
    var s1 := State([], Some(0), {}, 0, 1, [0], [0], []);
    assert Step(g, Naive, Init([0])) == Continue(s1);
    assert Step(g, Memoized, Init([0])) == Continue(s1);
    RunNaiveContinues(g, Init([0]), s1, 1);
    RunMemoContinues(g, Init([0]), s1);
  }

  /** A single project listing `WebAssembly` before `AspNetCore` is a
      standalone `BlazorWebAssembly` app, its own host not counting. */
  lemma WebAssemblyFirstIsStandalone()
    ensures var g := [Node(["WebAssembly", "AspNetCore"], [])];
      ValidGraph(g, [0]) &&
      RunMemo(g, Init([0])).outcome == BlazorWebAssembly &&
      RunMemo(g, Init([0])).final.countProcessed == 1 &&
      RunNaive(g, Init([0]), 1) == Some(RunMemo(g, Init([0])))
  {
    var g := [Node(["WebAssembly", "AspNetCore"], [])];
    assert FirstMatch(g[0].caps) == WebAssembly;
    RunNaiveStops(g, Init([0]), 1);
    RunMemoStops(g, Init([0]));
  }

  /** An `AspNetCore` project A referencing a `WebAssembly` project B. */
  function HostedApp(): seq<Node> {
    [Node(["AspNetCore"], [1]), Node(["WebAssembly"], [])]
  }

  /** On `HostedApp` the naive classifier reports A as the host of B. */
  lemma NaiveHostedDetection()
    ensures ValidGraph(HostedApp(), [0])
    ensures var r := RunNaive(HostedApp(), Init([0]), 2);
      r.Some? && r.value.outcome == BlazorHosted(0, 1)
  {
    var g := HostedApp();
    assert FirstMatch(g[0].caps) == AspNetCore && FirstMatch(g[1].caps) == WebAssembly;
    var s1 := State([1], Some(0), {}, 0, 1, [0], [0], [1]);
    assert Step(g, Naive, Init([0])) == Continue(s1);
    RunNaiveContinues(g, Init([0]), s1, 2);
    RunNaiveStops(g, s1, 1);
  }

  /** On `HostedApp` the memoized classifier reports A as the host of B. */
  lemma MemoizedHostedDetection()
    ensures ValidGraph(HostedApp(), [0])
    ensures RunMemo(HostedApp(), Init([0])).outcome == BlazorHosted(0, 1)
  {
    var g := HostedApp();
    assert FirstMatch(g[0].caps) == AspNetCore && FirstMatch(g[1].caps) == WebAssembly;
    var s1 := State([1], Some(0), {1}, 0, 1, [0], [0], [1]);
    assert Step(g, Memoized, Init([0])) == Continue(s1);
    RunMemoContinues(g, Init([0]), s1);
    RunMemoStops(g, s1);
  }
}
