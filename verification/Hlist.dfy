/** The hash chains of headers/linux/hlist.h: singly linked forward, with a pointer back to
    whichever pointer points here. */
module Hlist {

  /** struct hlist_node ** */
  datatype PPrev = Null | ToFirst(head: HlistHead) | ToNext(node: HlistNode)

  /** struct hlist_head */
  class HlistHead {
    var first: HlistNode?

    /** HLIST_HEAD_INIT */
    constructor ()
      ensures first == null
    {
      first := null;
    }
  }

  /** struct hlist_node, embedded in an object stored under a key. */
  class HlistNode {
    var next: HlistNode?
    var pprev: PPrev
    const key: nat

    /** INIT_HLIST_NODE() */
    constructor (k: nat)
      ensures next == null && pprev == Null && key == k
    {
      key := k;
      next := null;
      pprev := Null;
    }
  }

  /** Following next from the head passes exactly these nodes, once each, and every pprev points
      at the pointer that led there. */
  ghost predicate Chain(head: HlistHead, nodes: seq<HlistNode>)
    reads head, nodes
  {
    && (forall i, j | 0 <= i < j < |nodes| :: nodes[i] != nodes[j])
    && head.first == At(nodes, 0)
    && (forall i | 0 <= i < |nodes| :: nodes[i].next == At(nodes, i + 1) && nodes[i].pprev == Back(head, nodes, i))
  }

  ghost function At(nodes: seq<HlistNode>, i: nat): HlistNode? {
    if i < |nodes| then nodes[i] else null
  }

  ghost function Back(head: HlistHead, nodes: seq<HlistNode>, i: nat): PPrev
    requires i < |nodes|
  {
    if i == 0 then ToFirst(head) else ToNext(nodes[i - 1])
  }

  ghost function Without(nodes: seq<HlistNode>, i: nat): seq<HlistNode>
    requires i < |nodes|
  {
    nodes[..i] + nodes[i + 1..]
  }

  /** __hlist_del() */
  method Unlink(n: HlistNode, ghost head: HlistHead, ghost nodes: seq<HlistNode>, ghost i: nat)
    requires Chain(head, nodes) && i < |nodes| && nodes[i] == n
    modifies head, nodes
    ensures Chain(head, Without(nodes, i))
  {
    var next := n.next;
    var pprev := n.pprev;
    assert next == At(nodes, i + 1) && (i + 1 < |nodes| ==> next == nodes[i + 1]) && (i + 1 >= |nodes| ==> next == null);
    assert pprev == Back(head, nodes, i) && (i == 0 ==> pprev == ToFirst(head)) && (i > 0 ==> pprev == ToNext(nodes[i - 1]));
    assert head.first == At(nodes, 0) && (i == 0 ==> At(nodes, 1) == next);
    match pprev {
      case ToFirst(h) => h.first := next;
      case ToNext(p) => p.next := next;
    }
    if next != null {
      next.pprev := pprev;
    }
    hide At, Back;
    forall j | 0 <= j < |nodes| && j != i
      ensures nodes[j].next == (if j + 1 == i then At(nodes, i + 1) else At(nodes, j + 1))
    {
      assert nodes[j] != n;
    }
    forall j | 0 <= j < |nodes| && j != i
      ensures nodes[j].pprev == if j == i + 1 then Back(head, nodes, i) else Back(head, nodes, j)
    {
      assert nodes[j] != n;
    }
    assert head.first == if i == 0 then At(nodes, 1) else At(nodes, 0);
    RemovedChain(head, nodes, i);
  }

  /** Pointers rewired around the node at position i make the shorter chain. */
  lemma RemovedChain(head: HlistHead, nodes: seq<HlistNode>, i: nat)
    requires i < |nodes| && forall j, k | 0 <= j < k < |nodes| :: nodes[j] != nodes[k]
    requires forall j | 0 <= j < |nodes| && j != i ::
               && nodes[j].next == (if j + 1 == i then At(nodes, i + 1) else At(nodes, j + 1))
               && nodes[j].pprev == if j == i + 1 then Back(head, nodes, i) else Back(head, nodes, j)
    requires head.first == if i == 0 then At(nodes, 1) else At(nodes, 0)
    ensures Chain(head, Without(nodes, i))
  {
    hide At, Back, Without;
    var rest := Without(nodes, i);
    WithoutDistinct(nodes, i);
    WithoutAt(nodes, i, 0);
    forall j | 0 <= j < |rest|
      ensures rest[j].next == At(rest, j + 1) && rest[j].pprev == Back(head, rest, j)
    {
      WithoutAt(nodes, i, j);
      WithoutAt(nodes, i, j + 1);
      BackIs(head, rest, j);
      BackIs(head, nodes, if j < i then j else j + 1);
      if j > 0 {
        WithoutAt(nodes, i, j - 1);
      }
      if j == i {
        BackIs(head, nodes, i);
      }
    }
  }

  lemma WithoutAt(nodes: seq<HlistNode>, i: nat, k: nat)
    requires i < |nodes|
    ensures At(Without(nodes, i), k) == if k < i then At(nodes, k) else At(nodes, k + 1)
  {
  }

  lemma WithoutDistinct(nodes: seq<HlistNode>, i: nat)
    requires i < |nodes| && forall j, k | 0 <= j < k < |nodes| :: nodes[j] != nodes[k]
    ensures var rest := Without(nodes, i); |rest| == |nodes| - 1 && forall j, k | 0 <= j < k < |rest| :: rest[j] != rest[k]
  {
  }

  lemma NotWithout(head: HlistHead, nodes: seq<HlistNode>, i: nat)
    requires Chain(head, nodes) && i < |nodes|
    ensures nodes[i] !in Without(nodes, i)
  {
  }

  /** hlist_del_init(): nothing happens to a node that is on no list. */
  method DelInit(n: HlistNode, ghost head: HlistHead, ghost nodes: seq<HlistNode>) returns (ghost i: nat)
    requires Chain(head, nodes) && (n in nodes <==> n.pprev != Null)
    modifies head, nodes
    ensures n.pprev == Null
    ensures n !in nodes ==> Chain(head, nodes) && unchanged(head) && unchanged(nodes)
    ensures n in nodes ==> i < |nodes| && nodes[i] == n && n.next == null && Chain(head, Without(nodes, i))
  {
    hide Chain, Without;
    i := 0;
    if n.pprev != Null {
      i :| 0 <= i < |nodes| && nodes[i] == n;
      NotWithout(head, nodes, i);
      Unlink(n, head, nodes, i);
      ghost var rest := Without(nodes, i);
      n.next := null;
      n.pprev := Null;
      assert Chain(head, rest);
    }
  }

  /** hlist_add_head() */
  method AddHead(n: HlistNode, h: HlistHead, ghost nodes: seq<HlistNode>)
    requires Chain(h, nodes) && n !in nodes
    modifies n, h, nodes
    ensures Chain(h, [n] + nodes)
  {
    var first := h.first;
    assert first == At(nodes, 0);
    n.next := first;
    if first != null {
      first.pprev := ToNext(n);
    }
    h.first := n;
    n.pprev := ToFirst(h);
    assert forall j | 0 <= j < |nodes| ::
        nodes[j].next == At(nodes, j + 1) && nodes[j].pprev == if j == 0 then ToNext(n) else Back(h, nodes, j);
    InsertedChain(h, nodes, n, 0);
    assert Inserted(nodes, 0, n) == [n] + nodes;
  }

  /** hlist_add_before() */
  method AddBefore(n: HlistNode, next: HlistNode, ghost head: HlistHead, ghost nodes: seq<HlistNode>, ghost i: nat)
    requires Chain(head, nodes) && i < |nodes| && nodes[i] == next && n !in nodes
    modifies n, head, nodes
    ensures Chain(head, Inserted(nodes, i, n))
  {
    n.pprev := next.pprev;
    n.next := next;
    assert n.pprev == Back(head, nodes, i);
    next.pprev := ToNext(n);
    match n.pprev {
      case ToFirst(h) => h.first := n;
      case ToNext(p) => p.next := n;
    }
    assert n.next == next && n.pprev == Back(head, nodes, i);
    assert head.first == if i == 0 then n else At(nodes, 0);
    hide At, Back;
    forall j | 0 <= j < |nodes|
      ensures nodes[j].next == if j + 1 == i then n else At(nodes, j + 1)
    {
      assert nodes[j] != n;
    }
    forall j | 0 <= j < |nodes|
      ensures nodes[j].pprev == if j == i then ToNext(n) else Back(head, nodes, j)
    {
      assert nodes[j] != n;
    }
    BackIs(head, nodes, i);
    InsertedChain(head, nodes, n, i);
  }

  ghost function Inserted(nodes: seq<HlistNode>, i: nat, n: HlistNode): (all: seq<HlistNode>)
    requires i <= |nodes|
    ensures |all| == |nodes| + 1
  {
    nodes[..i] + [n] + nodes[i..]
  }

  lemma InsertedAt(nodes: seq<HlistNode>, i: nat, n: HlistNode, k: nat)
    requires i <= |nodes|
    ensures At(Inserted(nodes, i, n), k) == if k < i then At(nodes, k) else if k == i then n else At(nodes, k - 1)
  {
  }

  lemma InsertedDistinct(nodes: seq<HlistNode>, i: nat, n: HlistNode)
    requires i <= |nodes| && n !in nodes && forall j, k | 0 <= j < k < |nodes| :: nodes[j] != nodes[k]
    ensures var all := Inserted(nodes, i, n); forall j, k | 0 <= j < k < |all| :: all[j] != all[k]
  {
  }

  lemma BackIs(head: HlistHead, nodes: seq<HlistNode>, j: nat)
    requires j < |nodes|
    ensures At(nodes, j) == nodes[j]
    ensures j == 0 ==> Back(head, nodes, j) == ToFirst(head)
    ensures j > 0 ==> At(nodes, j - 1) != null && Back(head, nodes, j) == ToNext(At(nodes, j - 1))
  {
  }

  /** Pointers rewired around a new node at position i make the longer chain. */
  lemma InsertedChain(head: HlistHead, nodes: seq<HlistNode>, n: HlistNode, i: nat)
    requires i <= |nodes| && n !in nodes && forall j, k | 0 <= j < k < |nodes| :: nodes[j] != nodes[k]
    requires n.next == At(nodes, i) && n.pprev == if i == 0 then ToFirst(head) else ToNext(nodes[i - 1])
    requires forall j | 0 <= j < |nodes| ::
               && nodes[j].next == (if j + 1 == i then n else At(nodes, j + 1))
               && nodes[j].pprev == if j == i then ToNext(n) else Back(head, nodes, j)
    requires head.first == if i == 0 then n else At(nodes, 0)
    ensures Chain(head, Inserted(nodes, i, n))
  {
    hide At, Back, Inserted;
    var all := Inserted(nodes, i, n);
    InsertedDistinct(nodes, i, n);
    InsertedAt(nodes, i, n, 0);
    forall j | 0 <= j < |all|
      ensures all[j].next == At(all, j + 1) && all[j].pprev == Back(head, all, j)
    {
      InsertedAt(nodes, i, n, j);
      InsertedAt(nodes, i, n, j + 1);
      BackIs(head, all, j);
      if j > 0 {
        InsertedAt(nodes, i, n, j - 1);
      }
      if j < i {
        BackIs(head, nodes, j);
      } else if j == i {
        if i > 0 {
          BackIs(head, nodes, i - 1);
        }
      } else {
        BackIs(head, nodes, j - 1);
      }
    }
  }

  /** hlist_add_behind() */
  method AddBehind(n: HlistNode, prev: HlistNode, ghost head: HlistHead, ghost nodes: seq<HlistNode>, ghost i: nat)
    requires Chain(head, nodes) && i < |nodes| && nodes[i] == prev && n !in nodes
    modifies n, nodes
    ensures Chain(head, Inserted(nodes, i + 1, n))
  {
    assert head.first == At(nodes, 0);
    n.next := prev.next;
    prev.next := n;
    n.pprev := ToNext(prev);
    assert n.next == At(nodes, i + 1);
    if n.next != null {
      n.next.pprev := ToNext(n);
    }
    assert n.next == At(nodes, i + 1) && n.pprev == ToNext(nodes[i]);
    assert forall j | 0 <= j < |nodes| ::
        && nodes[j].next == (if j + 1 == i + 1 then n else At(nodes, j + 1))
        && nodes[j].pprev == if j == i + 1 then ToNext(n) else Back(head, nodes, j);
    InsertedChain(head, nodes, n, i + 1);
  }

  /** hlist_move_list() */
  method MoveList(from: HlistHead, to: HlistHead, ghost nodes: seq<HlistNode>)
    requires Chain(from, nodes) && from != to
    modifies from, to, nodes
    ensures Chain(to, nodes) && Chain(from, [])
  {
    to.first := from.first;
    assert to.first == At(nodes, 0);
    if to.first != null {
      to.first.pprev := ToFirst(to);
    }
    from.first := null;
  }

  /** hlist_for_each(): the nodes met. */
  method ForEach(head: HlistHead, ghost nodes: seq<HlistNode>) returns (visited: seq<HlistNode>)
    requires Chain(head, nodes)
    ensures visited == nodes
  {
    hide Chain, At;
    ChainStep(head, nodes);
    visited := [];
    var pos := head.first;
    ghost var i := 0;
    while pos != null
      invariant 0 <= i <= |nodes| && pos == At(nodes, i) && visited == nodes[..i]
      decreases |nodes| - i
    {
      AtIs(nodes, i);
      visited := visited + [pos];
      pos := pos.next;
      i := i + 1;
    }
    AtIs(nodes, i);
  }

  lemma ChainStep(head: HlistHead, nodes: seq<HlistNode>)
    requires Chain(head, nodes)
    ensures head.first == At(nodes, 0)
    ensures forall i | 0 <= i < |nodes| :: nodes[i].next == At(nodes, i + 1)
  {
  }

  lemma AtIs(nodes: seq<HlistNode>, i: nat)
    ensures At(nodes, i) == if i < |nodes| then nodes[i] else null
  {
  }
}
