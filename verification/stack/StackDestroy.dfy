/** stack_destroy, which main runs alone after both threads are joined. */
module StackDestroy {
  import opened StackMachine
  import opened StackClient

  /** The allocator: live nodes, and the addresses passed to free, in order. */
  class Allocator {
    var nodes: map<Addr, Node>
    var freed: seq<Addr>

    constructor (nodes: map<Addr, Node>)
      ensures this.nodes == nodes && freed == []
    {
      this.nodes := nodes;
      freed := [];
    }

    method Free(a: Addr)
      requires a in nodes
      modifies this
      ensures nodes == old(nodes) - {a} && freed == old(freed) + [a]
    {
      nodes := nodes - {a};
      freed := freed + [a];
    }

    /** Frees every node of the stack exactly once, top first, and touches nothing else; each
        prev is read before its node is freed. */
    method StackDestroy(top: Addr, ghost c: seq<Addr>)
      requires Linked(nodes, top, c) && NoDup(c)
      modifies this
      ensures freed == old(freed) + c
      ensures forall a :: a in nodes <==> a in old(nodes) && a !in c
      ensures forall a :: a in nodes ==> nodes[a] == old(nodes)[a]
    {
      var curr := top;
      ghost var k := 0;
      while curr != NULL
        invariant 0 <= k <= |c|
        invariant Linked(nodes, curr, c[k..])
        invariant freed == old(freed) + c[..k]
        invariant forall a :: a in nodes <==> a in old(nodes) && a !in c[..k]
        invariant forall a :: a in nodes ==> nodes[a] == old(nodes)[a]
        decreases |c| - k
      {
        assert c[k..][0] == c[k] && c[k..][1..] == c[k + 1..] && c[..k + 1] == c[..k] + [c[k]];
        var prev := nodes[curr].prev;
        LinkedFrame(nodes, nodes - {curr}, prev, c[k + 1..]);
        Free(curr);
        curr := prev;
        k := k + 1;
      }
      assert c[..k] == c;
    }
  }

  /** The end of main after any run: stack_destroy leaves no live node, and over the whole run
      malloc and free were called equally often, always on a live node. */
  method FinishMain(r: Roles, ghost es: seq<Event>, s: State) returns (a: Allocator)
    requires r.producer != r.consumer && MainRun(r, INIT, es) && s == Exec(INIT, es) && Joined(r, s)
    ensures a.nodes == map[] && s.frees + |a.freed| == s.mallocs == r.pushes
  {
    ghost var c := JoinedChain(r, es);
    a := new Allocator(s.heap);
    CardinalityOfChain(s.heap, c);
    a.StackDestroy(s.top, c);
    assert a.nodes.Keys == {};
  }

  lemma {:induction false} CardinalityOfChain(heap: map<Addr, Node>, c: seq<Addr>)
    requires NoDup(c) && forall a :: a in heap <==> a in c
    ensures |heap| == |c|
    decreases |c|
  {
    if c == [] {
      assert heap.Keys == {};
    } else {
      assert c == [c[0]] + c[1..];
      assert c[0] in c && c[0] !in c[1..];
      var rest := heap - {c[0]};
      CardinalityOfChain(rest, c[1..]);
      assert heap.Keys == rest.Keys + {c[0]};
      assert |heap| == |heap.Keys| && |rest| == |rest.Keys|;
    }
  }
}
