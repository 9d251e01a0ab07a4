/** list_traversal.cpp: linking the shuffled nodes into a list and walking it. */
module ListTraversal {

  class Node {
    ghost const index: nat   // its position in `memory`
    var next: Node?

    constructor (ghost index: nat)
      ensures this.index == index && next == null
    {
      this.index := index;
      next := null;
    }
  }

  /** The order std::shuffle puts the nodes into: any rearrangement of 0, ..., n - 1. */
  ghost predicate Permutation(perm: seq<nat>, n: nat) {
    && |perm| == n
    && (forall i :: 0 <= i < n ==> perm[i] < n)
    && (forall i, j :: 0 <= i < j < n ==> perm[i] != perm[j])
  }

  ghost predicate Distinct<T>(s: seq<T>) {
    forall i, j :: 0 <= i < j < |s| ==> s[i] != s[j]
  }

  /** The list starting at nodes[0] is nodes, in order. */
  ghost predicate Linked(nodes: seq<Node>)
    reads nodes
  {
    forall i :: 0 <= i < |nodes| ==> nodes[i].next == if i + 1 < |nodes| then nodes[i + 1] else null
  }

  /** Allocating the n nodes side by side. */
  method Allocate(n: nat) returns (memory: seq<Node>)
    ensures |memory| == n && Distinct(memory) && fresh(set x | x in memory)
    ensures forall i :: 0 <= i < n ==> memory[i].index == i && memory[i].next == null
  {
    memory := [];
    for i := 0 to n
      invariant |memory| == i && fresh(set x | x in memory)
      invariant forall k :: 0 <= k < i ==> memory[k].index == k && memory[k].next == null
    {
      var node := new Node(i);
      memory := memory + [node];
    }
  }

  /** The linking loop: nodes[i]->next = nodes[i + 1] for every i < n - 1. */
  method Link(nodes: seq<Node>)
    requires |nodes| >= 1 && Distinct(nodes) && forall i :: 0 <= i < |nodes| ==> nodes[i].next == null
    modifies nodes
    ensures Linked(nodes)
  {
    for i := 0 to |nodes| - 1
      invariant forall k :: 0 <= k < i ==> nodes[k].next == nodes[k + 1]
      invariant forall k :: i <= k < |nodes| ==> nodes[k].next == null
    {
      nodes[i].next := nodes[i + 1];
    }
  }

  /** One run of the inner loop: it visits every node once, in list order, and then stops. */
  method Walk(start: Node, ghost nodes: seq<Node>) returns (ghost visited: seq<Node>, steps: nat)
    requires nodes != [] && start == nodes[0] && Linked(nodes)
    ensures visited == nodes && steps == |nodes|
  {
    var node: Node? := start;
    visited, steps := [], 0;
    while node != null
      invariant steps == |visited| <= |nodes|
      invariant visited == nodes[..steps]
      invariant node == if steps < |nodes| then nodes[steps] else null
      decreases |nodes| - steps
    {
      assert nodes[steps].next == if steps + 1 < |nodes| then nodes[steps + 1] else null;
      visited := visited + [node];
      node := node.next;
      steps := steps + 1;
    }
  }

  /** time(): for every n >= 1, every outcome of the shuffle and every number of iterations, each
      traversal visits the nodes in the shuffled order and takes n steps. */
  method Time(n: nat, perm: seq<nat>, iters: nat) returns (ghost walks: seq<seq<nat>>, steps: nat)
    requires n >= 1 && Permutation(perm, n)
    ensures |walks| == iters && forall it :: 0 <= it < iters ==> walks[it] == perm
    ensures steps == n * iters
  {
    var memory := Allocate(n);
    var nodes := seq(n, i requires 0 <= i < n => memory[perm[i]]);
    assert Distinct(nodes);
    Link(nodes);
    var start := nodes[0];
    walks, steps := [], 0;
    for it := 0 to iters
      invariant |walks| == it && forall k :: 0 <= k < it ==> walks[k] == perm
      invariant steps == n * it
      invariant Linked(nodes)
    {
      ghost var visited;
      var s;
      visited, s := Walk(start, nodes);
      ghost var indices := seq(n, i requires 0 <= i < n => visited[i].index);
      assert indices == perm;
      walks := walks + [indices];
      steps := steps + s;
      assert n * (it + 1) == n * it + n;
    }
  }

  /** So each traversal reaches every one of the n nodes, exactly once. */
  lemma {:induction false} PermutationIsOnto(perm: seq<nat>, n: nat, x: nat)
    requires Permutation(perm, n) && x < n
    ensures exists i :: 0 <= i < n && perm[i] == x && forall j :: 0 <= j < n && perm[j] == x ==> j == i
  {
    var range := set i | 0 <= i < n :: perm[i];
    RangeSize(perm, n);
    SubsetOfSameSize(range, Below(n));
    assert x in range;
  }

  /** {0, ..., n - 1} */
  ghost function Below(n: nat): (r: set<nat>)
    ensures |r| == n && forall x: nat :: x in r <==> x < n
  {
    if n == 0 then {} else Below(n - 1) + {n - 1}
  }

  lemma {:induction false} RangeSize(perm: seq<nat>, k: nat)
    requires k <= |perm| && forall i, j :: 0 <= i < j < |perm| ==> perm[i] != perm[j]
    ensures |set i | 0 <= i < k :: perm[i]| == k
    decreases k
  {
    if k > 0 {
      RangeSize(perm, k - 1);
      assert (set i | 0 <= i < k :: perm[i]) == (set i | 0 <= i < k - 1 :: perm[i]) + {perm[k - 1]};
    }
  }

  lemma SubsetOfSameSize<T>(a: set<T>, b: set<T>)
    requires a <= b && |a| == |b|
    ensures a == b
  {
    assert |b - a| == |b| - |a|;
  }
}
