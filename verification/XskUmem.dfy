/** Ownership in xsk.c: a umem counts its sockets, a context counts the sockets on its
    queue, and the umem's list holds the contexts that are in use. */
module XskUmem {
  import opened Common
  import opened List

  datatype Key = Key(netns: nat, ifindex: nat, queue: nat)

  class Ctx {
    const key: Key
    var refcount: int
    var list: ListHead<Ctx>

    constructor (k: Key)
      ensures key == k && refcount == 1
      ensures fresh(list) && list.entry == Some(this) && list.next == null && list.prev == null
    {
      key := k;
      refcount := 1;
      list := new ListHead<Ctx>.Head();
      new;
      list := new ListHead<Ctx>.Node(this);
    }
  }

  class Socket {
    const ctx: Ctx
    const fd: int

    constructor (c: Ctx, f: int)
      ensures ctx == c && fd == f
    {
      ctx, fd := c, f;
    }
  }

  /** The places where xsk_socket__create_shared() can fail. */
  datatype Fault = NoFault | SocketFails | NetnsFails | NoContext | LaterFails

  ghost function Users(sockets: set<Socket>, c: Ctx): set<Socket> {
    set s | s in sockets && s.ctx == c
  }

  /** Nodes and contexts belong to each other, one to one, and keys are unique. */
  ghost predicate Entries(nodes: seq<ListHead<Ctx>>, ctxs: seq<Ctx>)
    reads ctxs
  {
    && |nodes| == |ctxs|
    && (forall i | 0 <= i < |nodes| :: nodes[i].entry == Some(ctxs[i]) && ctxs[i].list == nodes[i])
    && (forall i, j | 0 <= i < j < |ctxs| :: ctxs[i].key != ctxs[j].key)
  }

  /** Every context counts its sockets, and one more while a create is using it. */
  ghost predicate Counts(ctxs: seq<Ctx>, sockets: set<Socket>, pending: Option<Ctx>)
    reads ctxs
  {
    && (forall c | c in ctxs ::
          c.refcount == |Users(sockets, c)| + (if pending == Some(c) then 1 else 0) && c.refcount >= 1)
    && (forall s | s in sockets :: s.ctx in ctxs)
    && (pending.Some? ==> pending.value in ctxs)
  }

  lemma EntriesAdd(nodes: seq<ListHead<Ctx>>, ctxs: seq<Ctx>, c: Ctx)
    requires Entries(nodes, ctxs) && c.list.entry == Some(c) && forall x | x in ctxs :: x.key != c.key
    ensures Entries([c.list] + nodes, [c] + ctxs)
  {
    forall i, j | 0 <= i < j < |[c] + ctxs|
      ensures ([c] + ctxs)[i].key != ([c] + ctxs)[j].key
    {
      assert ctxs[j - 1] in ctxs;
    }
  }

  lemma EntriesRemove(nodes: seq<ListHead<Ctx>>, ctxs: seq<Ctx>, i: nat)
    requires Entries(nodes, ctxs) && i < |ctxs|
    ensures Entries(nodes[..i] + nodes[i + 1..], ctxs[..i] + ctxs[i + 1..])
    ensures ctxs[i] !in ctxs[..i] + ctxs[i + 1..]
  {
    var nodes', ctxs' := nodes[..i] + nodes[i + 1..], ctxs[..i] + ctxs[i + 1..];
    assert forall j | 0 <= j < |ctxs'| ::
      ctxs'[j] == ctxs[if j < i then j else j + 1] && nodes'[j] == nodes[if j < i then j else j + 1];
  }

  lemma CountsAdd(ctxs: seq<Ctx>, sockets: set<Socket>, c: Ctx)
    requires Counts(ctxs, sockets, None) && c !in ctxs && c.refcount == 1
    ensures Counts([c] + ctxs, sockets, Some(c))
  {
    assert Users(sockets, c) == {};
  }

  lemma CountsRemove(ctxs: seq<Ctx>, rest: seq<Ctx>, sockets: set<Socket>, c: Ctx)
    requires forall x | x in ctxs && x != c :: x.refcount == |Users(sockets, x)| >= 1
    requires forall s | s in sockets :: s.ctx in ctxs
    requires Users(sockets, c) == {} && forall x :: x in rest <==> x in ctxs && x != c
    ensures Counts(rest, sockets, None)
  {
    forall s | s in sockets
      ensures s.ctx in rest
    {
      assert s !in Users(sockets, c);
    }
  }

  lemma UsersAdd(sockets: set<Socket>, s: Socket)
    requires s !in sockets
    ensures forall c :: |Users(sockets + {s}, c)| == |Users(sockets, c)| + (if s.ctx == c then 1 else 0)
  {
    forall c
      ensures |Users(sockets + {s}, c)| == |Users(sockets, c)| + (if s.ctx == c then 1 else 0)
    {
      if s.ctx == c {
        assert Users(sockets + {s}, c) == Users(sockets, c) + {s};
      } else {
        assert Users(sockets + {s}, c) == Users(sockets, c);
      }
    }
  }

  lemma CountsSettle(ctxs: seq<Ctx>, sockets: set<Socket>, s: Socket)
    requires Counts(ctxs, sockets, Some(s.ctx)) && s !in sockets
    ensures Counts(ctxs, sockets + {s}, None)
  {
    UsersAdd(sockets, s);
  }

  lemma CountsUnsettle(ctxs: seq<Ctx>, sockets: set<Socket>, s: Socket)
    requires Counts(ctxs, sockets, None) && s in sockets
    ensures Counts(ctxs, sockets - {s}, Some(s.ctx))
  {
    UsersAdd(sockets - {s}, s);
    assert sockets - {s} + {s} == sockets;
  }

  lemma PendingListed(ctxs: seq<Ctx>, sockets: set<Socket>, c: Ctx)
    requires Counts(ctxs, sockets, Some(c))
    ensures c in ctxs && c.refcount >= 1
  {
  }

  lemma ContextsNeedSockets(ctxs: seq<Ctx>, sockets: set<Socket>)
    requires Counts(ctxs, sockets, None)
    ensures ctxs != [] ==> sockets != {}
  {
    if ctxs != [] {
      assert ctxs[0] in ctxs && |Users(sockets, ctxs[0])| >= 1;
      var s :| s in Users(sockets, ctxs[0]);
    }
  }

  class Umem {
    const fd: int
    var refcount: int
    const ctxList: ListHead<Ctx>
    ghost var nodes: seq<ListHead<Ctx>>
    ghost var ctxs: seq<Ctx>
    ghost var sockets: set<Socket>
    ghost var leaks: nat

    /** The circular list holds one node for each context in use. */
    ghost predicate ListOK()
      reads this, ctxList, nodes, ctxs
    {
      Cycle(ctxList, nodes) && ctxList.entry == None && Entries(nodes, ctxs)
    }

    ghost predicate CountsOK(pending: Option<Ctx>)
      reads this, ctxs
    {
      Counts(ctxs, sockets, pending)
    }

    ghost predicate FdsOK()
      reads this
    {
      forall s, t | s in sockets && t in sockets && s.fd == fd && t.fd == fd :: s == t
    }

    ghost predicate Valid()
      reads this, ctxList, nodes, ctxs
    {
      ListOK() && CountsOK(None) && FdsOK() && refcount == |sockets| + leaks
    }

    constructor (f: int)
      ensures Valid() && fd == f && refcount == 0 && sockets == {} && ctxs == [] && leaks == 0
      ensures fresh(ctxList)
    {
      fd := f;
      refcount := 0;
      ctxList := new ListHead<Ctx>.Head();
      nodes, ctxs, sockets, leaks := [], [], {}, 0;
    }

    /** xsk_get_ctx(): the context with that key, with its count raised. */
    method GetCtx(key: Key) returns (r: Ctx?)
      requires ListOK() && CountsOK(None)
      modifies ctxs
      ensures ListOK()
      ensures r != null ==> r.key == key && CountsOK(Some(r))
      ensures r == null ==> CountsOK(None) && forall c | c in ctxs :: c.key != key
      ensures forall c | c in ctxs && c != r :: c.refcount == old(c.refcount)
      ensures r != null ==> r in ctxs && r.refcount == old(r.refcount) + 1 >= 2
    {
      var empty := Empty(ctxList, nodes);
      if empty {
        return null;
      }
      ghost var all := [ctxList] + nodes;
      var pos := ctxList.next;
      assert ctxList == all[0] && all[0].next == all[1];
      ghost var i := 0;
      while pos != ctxList
        invariant 0 <= i <= |nodes|
        invariant pos == if i < |nodes| then nodes[i] else ctxList
        invariant forall k | 0 <= k < i :: ctxs[k].key != key
        decreases |nodes| - i
      {
        assert pos == nodes[i] == all[i + 1];
        var ctx := pos.entry.value;
        if ctx.key == key {
          assert ctx in ctxs;
          ctx.refcount := ctx.refcount + 1;
          return ctx;
        }
        pos := pos.next;
        i := i + 1;
        assert i < |nodes| ==> nodes[i] == all[i + 1];
      }
      r := null;
    }

    /** xsk_create_ctx(): a new context at the front of the list, held by its creator. */
    method CreateCtx(key: Key) returns (c: Ctx)
      requires ListOK() && CountsOK(None) && forall x | x in ctxs :: x.key != key
      modifies this`nodes, this`ctxs, ctxList, nodes
      ensures ListOK() && CountsOK(Some(c))
      ensures fresh(c) && fresh(c.list) && c.key == key && c.refcount == 1
      ensures ctxs == [c] + old(ctxs) && nodes == [c.list] + old(nodes)
      ensures forall x | x in old(ctxs) :: x.refcount == old(x.refcount)
    {
      hide Cycle, Entries, Counts;
      c := new Ctx(key);
      EntriesAdd(nodes, ctxs, c);
      CountsAdd(ctxs, sockets, c);
      Add(c.list, ctxList, nodes);
      nodes := [c.list] + nodes;
      ctxs := [c] + ctxs;
    }

    /** xsk_put_ctx(): drops one count; at zero the context leaves the list. */
    method PutCtx(ctx: Ctx) returns (ghost i: nat)
      requires ListOK() && CountsOK(Some(ctx))
      modifies this`nodes, this`ctxs, ctxList, nodes, ctx`refcount
      ensures ListOK() && CountsOK(None)
      ensures old(ctx.refcount) > 1 ==> ctxs == old(ctxs) && nodes == old(nodes)
      ensures old(ctx.refcount) > 1 ==> ctx.refcount == old(ctx.refcount) - 1
      ensures old(ctx.refcount) == 1 ==>
                && i < |old(ctxs)| && old(ctxs)[i] == ctx
                && ctxs == old(ctxs)[..i] + old(ctxs)[i + 1..] && nodes == old(nodes)[..i] + old(nodes)[i + 1..]
                && ctx !in ctxs
      ensures forall x | x in old(ctxs) && x != ctx :: x.refcount == old(x.refcount)
    {
      hide Cycle, Users;
      i :| 0 <= i < |ctxs| && ctxs[i] == ctx;
      ctx.refcount := ctx.refcount - 1;
      if ctx.refcount != 0 {
        return;
      }
      EntriesRemove(nodes, ctxs, i);
      Unlist(ctx, i);
      CountsRemove(old(ctxs), ctxs, sockets, ctx);
    }

    /** Takes a context off the list. */
    method Unlist(ctx: Ctx, ghost i: nat)
      requires ListOK() && i < |ctxs| && ctxs[i] == ctx
      modifies this`nodes, this`ctxs, ctxList, nodes
      ensures ListOK() && ctxs == old(ctxs)[..i] + old(ctxs)[i + 1..] && nodes == old(nodes)[..i] + old(nodes)[i + 1..]
    {
      hide Cycle;
      EntriesRemove(nodes, ctxs, i);
      Delete(ctx.list, ctxList, nodes, i);
      nodes := nodes[..i] + nodes[i + 1..];
      ctxs := ctxs[..i] + ctxs[i + 1..];
    }

    /** The context for a key: an existing one, or a new one unless that fails. */
    method AcquireCtx(key: Key, createFails: bool) returns (ctx: Ctx?, ghost created: bool)
      requires ListOK() && CountsOK(None)
      modifies this`nodes, this`ctxs, ctxList, nodes, ctxs
      ensures ListOK()
      ensures ctx == null ==> createFails && CountsOK(None) && ctxs == old(ctxs) && nodes == old(nodes)
      ensures ctx != null ==> CountsOK(Some(ctx)) && ctx.key == key
      ensures ctx != null && created ==>
                fresh(ctx) && fresh(ctx.list) && ctx.refcount == 1 && ctxs == [ctx] + old(ctxs) && nodes == [ctx.list] + old(nodes)
      ensures ctx != null && !created ==>
                ctx in old(ctxs) && ctx.refcount == old(ctx.refcount) + 1 >= 2 && ctxs == old(ctxs) && nodes == old(nodes)
      ensures forall c | c in old(ctxs) && c != ctx :: c.refcount == old(c.refcount)
    {
      hide Cycle, Entries, Counts;
      created := false;
      ctx := GetCtx(key);
      if ctx == null && !createFails {
        created := true;
        ctx := CreateCtx(key);
      }
    }

    /** Giving an acquired context back restores the list. */
    method ReturnCtx(ctx: Ctx, ghost created: bool, ghost nodes0: seq<ListHead<Ctx>>, ghost ctxs0: seq<Ctx>)
      requires ListOK() && CountsOK(Some(ctx))
      requires created ==> ctx.refcount == 1 && ctxs == [ctx] + ctxs0 && nodes == [ctx.list] + nodes0 && ctx !in ctxs0
      requires !created ==> ctx.refcount >= 2 && ctxs == ctxs0 && nodes == nodes0
      modifies this`nodes, this`ctxs, ctxList, nodes, ctx`refcount
      ensures ListOK() && CountsOK(None) && ctxs == ctxs0 && nodes == nodes0
      ensures !created ==> ctx.refcount == old(ctx.refcount) - 1
      ensures forall c | c in ctxs0 && c != ctx :: c.refcount == old(c.refcount)
    {
      hide Cycle, Entries, Counts;
      ghost var i := PutCtx(ctx);
      if created {
        assert i == 0;
      }
    }

    method OpenSocket(ctx: Ctx, sockFd: int) returns (r: Socket)
      requires ListOK() && CountsOK(Some(ctx)) && FdsOK() && refcount == |sockets| + leaks + 1
      requires sockFd == fd ==> forall s | s in sockets :: s.fd != fd
      modifies this`sockets
      ensures Valid() && fresh(r) && sockets == old(sockets) + {r} && r.ctx == ctx && r.fd == sockFd
    {
      hide Cycle, Entries, Counts;
      r := new Socket(ctx, sockFd);
      CountsSettle(ctxs, sockets, r);
      sockets := sockets + {r};
    }

    /** The part of xsk_socket__create_shared() after the count of the umem was raised and
        a descriptor chosen; every failure takes the count back. */
    method CreateOnFd(key: Key, sockFd: int, fault: Fault) returns (r: Socket?)
      requires ListOK() && CountsOK(None) && FdsOK() && refcount == |sockets| + leaks + 1
      requires sockFd == fd ==> forall s | s in sockets :: s.fd != fd
      modifies this`refcount, this`nodes, this`ctxs, this`sockets, ctxList, nodes, ctxs
      ensures Valid()
      ensures r != null ==> fresh(r) && sockets == old(sockets) + {r} && r.ctx.key == key && r.fd == sockFd
      ensures r == null ==>
                && fault != NoFault && refcount == old(refcount) - 1
                && sockets == old(sockets) && ctxs == old(ctxs) && nodes == old(nodes)
                && forall c | c in ctxs :: c.refcount == old(c.refcount)
    {
      hide Cycle, Entries, Counts;
      r := null;
      if fault == NetnsFails {
        refcount := refcount - 1;
        return;
      }
      ghost var nodes0, ctxs0 := nodes, ctxs;
      var ctx, created := AcquireCtx(key, fault == NoContext);
      if ctx == null {
        refcount := refcount - 1;
        return;
      }
      if fault == LaterFails {
        ReturnCtx(ctx, created, nodes0, ctxs0);
        refcount := refcount - 1;
        return;
      }
      r := OpenSocket(ctx, sockFd);
    }

    /** xsk_socket__create_shared(). `newFd` is what socket() returns. */
    method CreateShared(key: Key, newFd: int, fault: Fault) returns (r: Socket?)
      requires Valid() && newFd != fd
      modifies this`refcount, this`nodes, this`ctxs, this`sockets, this`leaks, ctxList, nodes, ctxs
      ensures Valid()
      // success: one more socket, on the context of its key
      ensures r != null ==> fresh(r) && sockets == old(sockets) + {r} && r.ctx.key == key && leaks == old(leaks)
      ensures r != null ==> (r.fd == fd <==> old(refcount) == 0)
      // a failed socket() leaves the count of the umem raised, and nothing else
      ensures r == null ==> sockets == old(sockets) && ctxs == old(ctxs) && nodes == old(nodes)
      ensures r == null ==> forall c | c in ctxs :: c.refcount == old(c.refcount)
      ensures r == null ==> leaks == old(leaks) + (if fault == SocketFails && old(refcount) > 0 then 1 else 0)
      ensures r == null ==> refcount == old(refcount) + (if fault == SocketFails && old(refcount) > 0 then 1 else 0)
      ensures fault == NoFault ==> r != null
    {
      hide Cycle, Entries, Counts;
      var sockFd := fd;
      refcount := refcount + 1;
      if refcount > 1 {
        if fault == SocketFails {
          leaks := leaks + 1;
          return null;
        }
        sockFd := newFd;
      } else {
        assert sockets == {};
      }
      r := CreateOnFd(key, sockFd, fault);
    }

    /** xsk_socket__delete(). */
    method DeleteSocket(xsk: Socket)
      requires Valid() && xsk in sockets
      modifies this`refcount, this`nodes, this`ctxs, this`sockets, ctxList, nodes, xsk.ctx`refcount
      ensures Valid()
      ensures sockets == old(sockets) - {xsk} && refcount == old(refcount) - 1
      ensures xsk.ctx in ctxs <==> exists s :: s in sockets && s.ctx == xsk.ctx
      ensures forall c | c in ctxs :: c in old(ctxs)
    {
      hide Cycle, Entries, Counts;
      CountsUnsettle(ctxs, sockets, xsk);
      sockets := sockets - {xsk};
      ghost var before := ctxs;
      PendingListed(ctxs, sockets, xsk.ctx);
      ghost var i := PutCtx(xsk.ctx);
      refcount := refcount - 1;
      InListIffUsed(xsk.ctx, before, i);
    }

    lemma InListIffUsed(c: Ctx, before: seq<Ctx>, i: nat)
      requires Counts(ctxs, sockets, None) && c in before
      requires ctxs == before || (i < |before| && before[i] == c && ctxs == before[..i] + before[i + 1..] && c !in ctxs)
      ensures c in ctxs <==> exists s :: s in sockets && s.ctx == c
      ensures forall x | x in ctxs :: x in before
    {
      if c in ctxs {
        assert |Users(sockets, c)| >= 1;
        var s :| s in Users(sockets, c);
      }
    }

    /** xsk_umem__delete(): refused while the count is not zero. */
    method DeleteUmem() returns (busy: bool)
      requires Valid()
      ensures busy <==> sockets != {} || leaks > 0
      ensures !busy ==> ctxs == [] && ctxList.next == ctxList
    {
      busy := refcount != 0;
      if !busy {
        ContextsNeedSockets(ctxs, sockets);
        ghost var all := [ctxList] + nodes;
        assert all == [ctxList];
      }
    }
  }
}
