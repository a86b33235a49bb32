/**
The intrusive circular doubly linked list. A list is its head node, and the ghost
sequence `nodes` says what hangs on it, in order.
*/
module TlsList {
  import opened Common

  class ListNode {
    var pre: ListNode?
    var next: ListNode?

    constructor ()
      ensures pre == null && next == null
    {
      pre, next := null, null;
    }
  }

  /** head and nodes form one ring: each next link is undone by the pre link of its target. */
  ghost predicate Ring(head: ListNode, nodes: seq<ListNode>)
    reads head, nodes
  {
    var ring := [head] + nodes + [head];
    && head !in nodes && NoDup(nodes)
    && forall i | 0 <= i <= |nodes| :: ring[i].next == ring[i + 1] && ring[i + 1].pre == ring[i]
  }

  method Initialize(head: ListNode)
    modifies head
    ensures Ring(head, [])
  {
    head.pre, head.next := head, head;
  }

  method IsEmpty(head: ListNode, ghost nodes: seq<ListNode>) returns (empty: bool)
    requires Ring(head, nodes)
    ensures empty == (nodes == [])
  {
    ghost var ring := [head] + nodes + [head];
    assert ring[0].next == ring[1];
    empty := head.pre == null || head.next == null || head.next == head;
    assert ring[|nodes|].next == ring[|nodes| + 1] && ring[|nodes| + 1].pre == ring[|nodes|];
  }

  method InsertTail(head: ListNode, ghost nodes: seq<ListNode>, node: ListNode)
    requires Ring(head, nodes)
    requires node !in nodes && node != head
    modifies head, nodes, node
    ensures Ring(head, nodes + [node])
    ensures forall x | x in nodes && x != nodes[|nodes| - 1] :: unchanged(x)
  {
    ghost var ring := [head] + nodes + [head];
    assert ring[|nodes|].next == ring[|nodes| + 1] && ring[|nodes| + 1].pre == ring[|nodes|];
    assert forall i | 0 <= i < |nodes| :: ring[i].next == ring[i + 1] && ring[i + 1].pre == ring[i];
    node.next := head;
    head.pre.next := node;
    node.pre := head.pre;
    head.pre := node;
    ghost var ring' := [head] + (nodes + [node]) + [head];
    forall i | 0 <= i <= |nodes| + 1 ensures ring'[i].next == ring'[i + 1] && ring'[i + 1].pre == ring'[i] {
      if i < |nodes| {
        assert ring'[i] == ring[i] && ring'[i + 1] == ring[i + 1];
      }
    }
  }

  /** Unlinks the first node. On an empty list the head itself comes back and nothing changes. */
  method RemoveHead(head: ListNode, ghost nodes: seq<ListNode>) returns (node: ListNode)
    requires Ring(head, nodes)
    modifies head, nodes
    ensures node == if nodes == [] then head else nodes[0]
    ensures Ring(head, if nodes == [] then [] else nodes[1..])
    ensures nodes != [] ==> unchanged(nodes[0])
    ensures nodes == [] ==> unchanged(head)
  {
    ghost var ring := [head] + nodes + [head];
    assert ring[0].next == ring[1];
    node := head.next;
    if nodes == [] {
      assert ring[1].pre == ring[0];
    } else {
      assert ring[1].next == ring[2] && ring[1] == nodes[0];
      assert forall i | 2 <= i <= |nodes| :: ring[i].next == ring[i + 1] && ring[i + 1].pre == ring[i];
    }
    node.next.pre := head;
    head.next := node.next;
    ghost var rest := if nodes == [] then [] else nodes[1..];
    ghost var ring' := [head] + rest + [head];
    forall i | 0 <= i <= |rest| ensures ring'[i].next == ring'[i + 1] && ring'[i + 1].pre == ring'[i] {
      if nodes != [] {
        assert ring'[i + 1] == ring[i + 2];
        assert i > 0 ==> ring'[i] == ring[i + 1];
      }
    }
  }

  /** The position of x in xs, or |xs| when it is not there. */
  ghost function IndexOf(xs: seq<ListNode>, x: ListNode?): (i: nat)
    ensures i <= |xs| && (i < |xs| ==> xs[i] == x)
    ensures forall k | 0 <= k < i :: xs[k] != x
    ensures i == |xs| ==> x !in xs
  {
    if xs == [] then 0
    else if xs[0] == x then 0
    else
      var i := IndexOf(xs[1..], x);
      assert forall k | 0 < k < i + 1 :: xs[k] == xs[1..][k - 1];
      i + 1
  }

  /** Looks the node up and unlinks it; null when it is not on the list. */
  method RemoveNode(head: ListNode, ghost nodes: seq<ListNode>, node: ListNode?) returns (removed: ListNode?)
    requires Ring(head, nodes)
    modifies head, nodes
    ensures removed == if node in nodes then node else null
    ensures var i := IndexOf(nodes, node);
      if i < |nodes| then Ring(head, nodes[..i] + nodes[i + 1..]) && node.pre == node == node.next
      else Ring(head, nodes) && unchanged(head) && forall x | x in nodes :: unchanged(x)
  {
    if node == null {
      return null;
    }
    ghost var ring := [head] + nodes + [head];
    assert ring[0].next == ring[1];
    var x := head.next;
    ghost var k := 0;
    while x != head && x != node
      invariant 0 <= k <= |nodes|
      invariant x == ring[k + 1]
      invariant forall m | 0 <= m < k :: nodes[m] != node
      decreases |nodes| - k
    {
      assert ring[k + 1].next == ring[k + 2];
      x := x.next;
      k := k + 1;
    }
    if x == head {
      return null;
    }
    Unlink(head, nodes, k, x);
    removed := x;
  }

  /** The ring without its k-th node, place by place. */
  lemma RingWithout(head: ListNode, nodes: seq<ListNode>, k: nat)
    requires k < |nodes|
    ensures var ring, ring' := [head] + nodes + [head], [head] + (nodes[..k] + nodes[k + 1..]) + [head];
      |ring'| == |ring| - 1 && forall i | 0 <= i < |ring'| :: ring'[i] == if i <= k then ring[i] else ring[i + 1]
    ensures NoDup(nodes) ==> NoDup(nodes[..k] + nodes[k + 1..])
    ensures head !in nodes ==> head !in nodes[..k] + nodes[k + 1..]
  {
  }

  method Unlink(head: ListNode, ghost nodes: seq<ListNode>, ghost k: nat, x: ListNode)
    requires Ring(head, nodes) && k < |nodes| && nodes[k] == x
    modifies head, nodes
    ensures Ring(head, nodes[..k] + nodes[k + 1..])
    ensures x.pre == x == x.next
  {
    ghost var ring := [head] + nodes + [head];
    ghost var rest := nodes[..k] + nodes[k + 1..];
    ghost var ring' := [head] + rest + [head];
    RingWithout(head, nodes, k);
    hide NoDup;
    assert forall i | 0 <= i <= |nodes| :: ring[i].next == ring[i + 1] && ring[i + 1].pre == ring[i];
    assert ring[k + 1] == x && ring[k].next == ring[k + 1] && ring[k + 1].next == ring[k + 2];
    assert ring[k].next == x && x.pre == ring[k] && x.next == ring[k + 2] && ring[k + 2].pre == x;
    x.pre.next := x.next;
    x.next.pre := x.pre;
    x.pre, x.next := x, x;
    forall i | 0 <= i <= |rest| ensures ring'[i].next == ring'[i + 1] && ring'[i + 1].pre == ring'[i] {
      assert ring'[i] == if i <= k then ring[i] else ring[i + 1];
      assert ring'[i + 1] == if i < k then ring[i + 1] else ring[i + 2];
    }
  }
}
