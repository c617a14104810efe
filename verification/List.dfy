/** The circular doubly linked list of linux/list.h. */
module List {
  import opened Common

  /** struct list_head. `entry` is the structure a node is embedded in (container_of);
      a list head has none. A deleted node has null links, in place of the poison values. */
  class ListHead<T> {
    var next: ListHead?<T>
    var prev: ListHead?<T>
    const entry: Option<T>

    /** INIT_LIST_HEAD(). */
    constructor Head()
      ensures next == this && prev == this && entry == None
    {
      entry := None;
      new;
      next := this;
      prev := this;
    }

    constructor Node(e: T)
      ensures next == null && prev == null && entry == Some(e)
    {
      entry := Some(e);
      next, prev := null, null;
    }
  }

  /** Going round from the head passes exactly the given nodes, in both directions. */
  ghost predicate Cycle<T>(head: ListHead<T>, nodes: seq<ListHead<T>>)
    reads head, nodes
  {
    var all := [head] + nodes;
    && (forall i, j | 0 <= i < j < |all| :: all[i] != all[j])
    && (forall i | 0 <= i < |all| - 1 :: all[i].next == all[i + 1] && all[i + 1].prev == all[i])
    && all[|all| - 1].next == head && head.prev == all[|all| - 1]
  }

  /** __list_add(). */
  method Link<T>(node: ListHead<T>, prev: ListHead<T>, next: ListHead<T>)
    modifies node, prev, next
    requires node != prev && node != next
    ensures next.prev == node && prev.next == node && node.next == next && node.prev == prev
    ensures prev != next ==> next.next == old(next.next) && prev.prev == old(prev.prev)
  {
    next.prev := node;
    node.next := next;
    node.prev := prev;
    prev.next := node;
  }

  /** Pointers rewired around a new node behind the head make the longer cycle. */
  lemma AddedCycle<T>(head: ListHead<T>, node: ListHead<T>, nodes: seq<ListHead<T>>)
    requires node != head && node !in nodes && head !in nodes && forall i, j | 0 <= i < j < |nodes| :: nodes[i] != nodes[j]
    requires head.next == node && node.prev == head
    requires forall i | 0 <= i < |nodes| - 1 :: nodes[i].next == nodes[i + 1] && nodes[i + 1].prev == nodes[i]
    requires nodes == [] ==> node.next == head && head.prev == node
    requires nodes != [] ==> node.next == nodes[0] && nodes[0].prev == node
    requires nodes != [] ==> nodes[|nodes| - 1].next == head && head.prev == nodes[|nodes| - 1]
    ensures Cycle(head, [node] + nodes)
  {
    var all := [head] + ([node] + nodes);
    assert all[0] == head && all[1] == node && forall i | 2 <= i < |all| :: all[i] == nodes[i - 2];
    forall i | 0 <= i < |all| - 1
      ensures all[i].next == all[i + 1] && all[i + 1].prev == all[i]
    {
      if i >= 2 {
        assert nodes[i - 2].next == nodes[i - 2 + 1];
      }
    }
  }

  /** What a cycle is, without the head in the sequence. */
  lemma CycleParts<T>(head: ListHead<T>, nodes: seq<ListHead<T>>)
    requires Cycle(head, nodes)
    ensures head !in nodes && forall i, j | 0 <= i < j < |nodes| :: nodes[i] != nodes[j]
    ensures forall i | 0 <= i < |nodes| - 1 :: nodes[i].next == nodes[i + 1] && nodes[i + 1].prev == nodes[i]
    ensures nodes == [] ==> head.next == head && head.prev == head
    ensures nodes != [] ==> head.next == nodes[0] && nodes[0].prev == head
    ensures nodes != [] ==> nodes[|nodes| - 1].next == head && head.prev == nodes[|nodes| - 1]
  {
    var all := [head] + nodes;
    assert all[0] == head && forall i | 0 <= i < |nodes| :: nodes[i] == all[i + 1];
  }

  /** list_add(): after the head. */
  method Add<T>(node: ListHead<T>, head: ListHead<T>, ghost nodes: seq<ListHead<T>>)
    requires Cycle(head, nodes) && node != head && node !in nodes
    modifies node, head, nodes
    ensures Cycle(head, [node] + nodes)
  {
    CycleParts(head, nodes);
    hide Cycle;
    var next: ListHead<T> := head.next;
    Link(node, head, next);
    AddedCycle(head, node, nodes);
  }

  /** list_del(): the neighbours are linked to each other. */
  method Delete<T>(node: ListHead<T>, ghost head: ListHead<T>, ghost nodes: seq<ListHead<T>>, ghost i: nat)
    requires Cycle(head, nodes) && i < |nodes| && nodes[i] == node
    modifies head, nodes
    ensures Cycle(head, nodes[..i] + nodes[i + 1..])
    ensures node.next == null && node.prev == null
  {
    ghost var all := [head] + nodes;
    assert node == all[i + 1];
    assert node.prev == all[i];
    assert node.next == if i + 2 < |all| then all[i + 2] else head;
    var prev: ListHead<T> := node.prev;
    var next: ListHead<T> := node.next;
    next.prev := prev;
    prev.next := next;
    node.next := null;
    node.prev := null;
    ghost var all' := [head] + (nodes[..i] + nodes[i + 1..]);
    assert forall j | 0 <= j <= i :: all'[j] == all[j];
    assert forall j | i < j < |all'| :: all'[j] == all[j + 1];
  }

  /** list_empty(). */
  method Empty<T>(head: ListHead<T>, ghost nodes: seq<ListHead<T>>) returns (empty: bool)
    requires Cycle(head, nodes)
    ensures empty <==> nodes == []
  {
    ghost var all := [head] + nodes;
    assert head == all[0];
    assert nodes != [] ==> all[0].next == all[1] && all[1] != all[0];
    empty := head.next == head;
  }
}
