/** The project-reference graph the classifier walks.
    A project is identified by its index in the node sequence; the MSBuild
    evaluation that produces each node's capability items and references
    happens before the classifier runs and is represented by the fixed
    fields of `Node`. */
module ProjectGraph {

  /** One project of the graph: its `ProjectCapability` items in evaluation
      order, and its project references in declaration order. */
  datatype Node = Node(caps: seq<string>, refs: seq<nat>)

  /** Every reference names a node of the graph. */
  ghost predicate RefsInGraph(nodes: seq<Node>) {
    forall n :: n in nodes ==> forall r :: r in n.refs ==> r < |nodes|
  }

  /** Every reference and every entry point names a node of the graph. */
  ghost predicate ValidGraph(nodes: seq<Node>, entryPoints: seq<nat>) {
    RefsInGraph(nodes) && forall e :: e in entryPoints ==> e < |nodes|
  }

  /** The identities of all nodes. */
  function Ids(count: nat): (ids: set<nat>)
    ensures forall i: nat :: i in ids <==> i < count
  {
    if count == 0 then {} else Ids(count - 1) + {count - 1}
  }

  /** The elements of a sequence, as a set. */
  function Elems(xs: seq<nat>): set<nat> {
    set x | x in xs
  }

  /** No element occurs twice. */
  ghost predicate NoDup(xs: seq<nat>) {
    forall i, j :: 0 <= i < j < |xs| ==> xs[i] != xs[j]
  }

  lemma {:induction false} IdsCard(count: nat)
    ensures |Ids(count)| == count
  {
    if count > 0 {
      IdsCard(count - 1);
    }
  }

  lemma {:induction false} NoDupCard(xs: seq<nat>)
    requires NoDup(xs)
    ensures |Elems(xs)| == |xs|
  {
    if xs != [] {
      var init := xs[..|xs| - 1];
      assert NoDup(init);
      assert Elems(xs) == Elems(init) + {xs[|xs| - 1]};
      assert xs[|xs| - 1] !in Elems(init);
      NoDupCard(init);
    }
  }

  /** A set of node identities holds at most as many members as the graph has nodes. */
  lemma BoundedByGraph(s: set<nat>, count: nat)
    requires forall x :: x in s ==> x < count
    ensures |s| <= count
  {
    IdsCard(count);
    assert Ids(count) == s + (Ids(count) - s);
  }

  /** `p` follows project references: every step goes from a project to one it references. */
  ghost predicate IsPath(nodes: seq<Node>, p: seq<nat>) {
    p != [] &&
    (forall i :: 0 <= i < |p| ==> p[i] < |nodes|) &&
    (forall i :: 0 <= i < |p| - 1 ==> p[i + 1] in nodes[p[i]].refs)
  }

  /** `x` can be reached from an entry point by following references. */
  ghost predicate Reachable(nodes: seq<Node>, entryPoints: seq<nat>, x: nat) {
    exists p :: IsPath(nodes, p) && p[0] in entryPoints && p[|p| - 1] == x
  }

  /** Every entry point of the graph is reachable. */
  lemma EntryReachable(nodes: seq<Node>, entryPoints: seq<nat>, x: nat)
    requires x in entryPoints && x < |nodes|
    ensures Reachable(nodes, entryPoints, x)
  {
    assert IsPath(nodes, [x]);
  }

  /** A reference of a reachable project is reachable. */
  lemma ReferenceReachable(nodes: seq<Node>, entryPoints: seq<nat>, x: nat, r: nat)
    requires Reachable(nodes, entryPoints, x) && x < |nodes| && r in nodes[x].refs && r < |nodes|
    ensures Reachable(nodes, entryPoints, r)
  {
    var p :| IsPath(nodes, p) && p[0] in entryPoints && p[|p| - 1] == x;
    var q := p + [r];
    assert forall i :: 0 <= i < |p| ==> q[i] == p[i];
    assert IsPath(nodes, q);
  }

  /** A set of projects that holds the entry points and every reference of
      its members holds every reachable project. */
  lemma {:induction false} ClosedHoldsReachable(nodes: seq<Node>, entryPoints: seq<nat>, c: set<nat>, x: nat)
    requires forall e :: e in entryPoints ==> e in c
    requires forall y, r :: y in c && y < |nodes| && r in nodes[y].refs ==> r in c
    requires Reachable(nodes, entryPoints, x)
    ensures x in c
  {
    var p :| IsPath(nodes, p) && p[0] in entryPoints && p[|p| - 1] == x;
    PathStaysIn(nodes, c, p);
  }

  lemma {:induction false} PathStaysIn(nodes: seq<Node>, c: set<nat>, p: seq<nat>)
    requires IsPath(nodes, p) && p[0] in c
    requires forall y, r :: y in c && y < |nodes| && r in nodes[y].refs ==> r in c
    ensures p[|p| - 1] in c
  {
    if |p| > 1 {
      var init := p[..|p| - 1];
      assert forall i :: 0 <= i < |init| ==> init[i] == p[i];
      assert IsPath(nodes, init);
      PathStaysIn(nodes, c, init);
      assert p[|p| - 1] in nodes[p[|p| - 2]].refs;
    }
  }
}
