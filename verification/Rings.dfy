// The circular intrusive lists of kernel/include/klib/list.h. A list head and the list_head field of a task
// are both nodes; a ring lists the nodes in link order, starting with the head.

module Rings {

  datatype TaskState = Sleeping | Runnable

  class Node {
    var next: Node?
    var prev: Node?
    var state: TaskState
    const pid: nat

    // INIT_LIST_HEAD: a ring of its own.
    constructor (pid: nat)
      ensures this.pid == pid && next == this && prev == this && state == Runnable
    {
      this.pid := pid;
      next := this;
      prev := this;
      state := Runnable;
    }
  }

  ghost predicate DistinctNodes(s: seq<Node>) {
    forall i, j :: 0 <= i < j < |s| ==> s[i] != s[j]
  }

  ghost predicate Ring(s: seq<Node>)
    reads s`next, s`prev
  {
    && s != [] && DistinctNodes(s)
    && (forall i {:trigger s[i].next} :: 0 <= i < |s| - 1 ==> s[i].next == s[i + 1])
    && (forall i {:trigger s[i].prev} :: 0 < i < |s| ==> s[i].prev == s[i - 1])
    && s[|s| - 1].next == s[0] && s[0].prev == s[|s| - 1]
  }

  // Where list_add_tail puts a node relative to position k; before the head means at the end.
  function Splice(s: seq<Node>, k: nat, node: Node): seq<Node>
    requires k < |s|
  {
    if k == 0 then s + [node] else s[..k] + [node] + s[k..]
  }

  function Cut(s: seq<Node>, k: nat): seq<Node>
    requires k < |s|
  {
    s[..k] + s[k + 1..]
  }

  // _list_add
  method ListAdd(node: Node, left: Node, right: Node)
    requires node != left && node != right
    modifies node`next, node`prev, left`next, right`prev
    ensures node.next == right && node.prev == left && left.next == node && right.prev == node
  {
    node.next := right;
    node.prev := left;
    left.next := node;
    right.prev := node;
  }

  ghost predicate Apart(s: seq<Node>, other: seq<Node>) {
    forall x :: x in s ==> x !in other
  }

  lemma SpliceNodes(s: seq<Node>, k: nat, node: Node)
    requires DistinctNodes(s) && k < |s| && node !in s
    ensures var at := if k == 0 then |s| else k;
      forall i :: 0 <= i <= |s| ==> Splice(s, k, node)[i] == if i < at then s[i] else if i == at then node else s[i - 1]
    ensures DistinctNodes(Splice(s, k, node))
  {
    var r, at := Splice(s, k, node), if k == 0 then |s| else k;
    assert forall i :: 0 <= i <= |s| ==> r[i] == if i < at then s[i] else if i == at then node else s[i - 1];
    forall i, j | 0 <= i < j < |r| ensures r[i] != r[j] {
      assert i != at ==> r[i] in s;
      assert j != at ==> r[j] in s;
    }
  }

  // list_add_tail; a ring that shares no node with this one is left alone.
  method ListAddTail(node: Node, pos: Node, ghost s: seq<Node>, ghost k: nat, ghost other: seq<Node>)
    requires Ring(s) && k < |s| && s[k] == pos && node !in s
    requires Ring(other) && Apart(s, other) && node !in other
    modifies node`next, node`prev, pos`prev, pos.prev`next
    ensures Ring(Splice(s, k, node)) && Ring(other)
  {
    var left := pos.prev;
    assert left == s[if k == 0 then |s| - 1 else k - 1];
    assert left in s && pos in s;
    ListAdd(node, left, pos);
    SpliceNodes(s, k, node);
  }

  // list_del
  method ListDel(node: Node, ghost s: seq<Node>, ghost k: nat, ghost other: seq<Node>)
    requires Ring(s) && 0 < k < |s| && s[k] == node
    requires Ring(other) && Apart(s, other)
    modifies node`next, node`prev, node.prev`next, node.next`prev
    ensures Ring(Cut(s, k)) && node.next == null && node.prev == null && Ring(other)
  {
    var prev, next := node.prev, node.next;
    assert prev == s[k - 1] && next == s[if k + 1 < |s| then k + 1 else 0];
    assert prev in s && next in s && node in s;
    prev.next := next;
    next.prev := prev;
    node.next := null;
    node.prev := null;
    ghost var r := Cut(s, k);
    assert forall i :: 0 <= i < |r| ==> r[i] == if i < k then s[i] else s[i + 1];
  }
}
