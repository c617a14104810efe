/** struct xsk_ring_prod and struct xsk_ring_cons, updated in place. Each method is shown to
    do to the words of the ring what the function of the same name says. */
module XskRingSides {
  import opened Common
  import opened Words
  import R = XskRing

  /** The mapped memory: both index words and the descriptor array. */
  class SharedMemory<T> {
    var producer: nat
    var consumer: nat
    var ring: array<T>

    constructor (slots: array<T>)
      ensures producer == 0 && consumer == 0 && ring == slots
    {
      producer, consumer, ring := 0, 0, slots;
    }
  }

  class RingProd<T> {
    var cachedProd: nat
    var cachedCons: nat
    const mask: nat
    const size: nat
    const shm: SharedMemory<T>

    /** All words of the ring; the consumer's private caches are given. */
    ghost function View(cp: nat, cc: nat): R.Ring<T>
      reads this, shm, shm.ring
    {
      R.Ring(size, shm.ring[..], shm.producer, shm.consumer, cachedProd, cachedCons, cp, cc)
    }

    ghost predicate Valid()
      reads this, shm, shm.ring
    {
      shm.ring.Length == size && size >= 1 && mask == size - 1
    }

    /** Ring initialisation: cached_cons starts `size` ahead of the consumer. */
    constructor (memory: SharedMemory<T>)
      requires memory.ring.Length >= 1
      ensures Valid() && shm == memory && size == memory.ring.Length
      ensures cachedProd == memory.producer && cachedCons == Wrap(memory.consumer + size)
    {
      shm := memory;
      size := memory.ring.Length;
      mask := memory.ring.Length - 1;
      cachedProd := memory.producer;
      cachedCons := Wrap(memory.consumer + memory.ring.Length);
    }

    method NbFree(nb: nat) returns (free: nat)
      requires Valid()
      modifies this`cachedCons
      ensures Valid()
      ensures forall cp, cc :: (free, View(cp, cc)) == R.NbFree(old(View(cp, cc)), nb)
    {
      free := Wrap(cachedCons - cachedProd);
      if free >= nb {
        return;
      }
      cachedCons := shm.consumer;
      cachedCons := Wrap(cachedCons + size);
      free := Wrap(cachedCons - cachedProd);
    }

    method Reserve(nb: nat) returns (got: nat, idx: Option<nat>)
      requires Valid()
      modifies this
      ensures Valid()
      ensures forall cp, cc :: (got, View(cp, cc)) == R.Reserve(old(View(cp, cc)), nb)
      ensures idx.Some? ==> got == nb && idx.value == old(cachedProd)
      ensures idx.None? ==> got == 0 && nb > 0
    {
      var free := NbFree(nb);
      if free < nb {
        return 0, None;
      }
      idx := Some(cachedProd);
      cachedProd := Wrap(cachedProd + nb);
      got := nb;
    }

    method Submit(nb: nat)
      requires Valid()
      modifies shm`producer
      ensures Valid()
      ensures forall cp, cc :: View(cp, cc) == R.Submit(old(View(cp, cc)), nb)
    {
      shm.producer := Wrap(shm.producer + nb);
    }

    /** Stores through xsk_ring_prod__tx_desc() or xsk_ring_prod__fill_addr(). */
    method Store(idx: nat, v: T)
      requires Valid()
      modifies shm.ring
      ensures Valid() && BitAnd(idx, mask) < size
      ensures shm.ring[..] == old(shm.ring[..])[BitAnd(idx, mask) := v]
    {
      AndAtMost(idx, mask);
      shm.ring[BitAnd(idx, mask)] := v;
    }
  }

  class RingCons<T> {
    var cachedProd: nat
    var cachedCons: nat
    const mask: nat
    const size: nat
    const shm: SharedMemory<T>

    /** All words of the ring; the producer's private caches are given. */
    ghost function View(pp: nat, pc: nat): R.Ring<T>
      reads this, shm, shm.ring
    {
      R.Ring(size, shm.ring[..], shm.producer, shm.consumer, pp, pc, cachedProd, cachedCons)
    }

    ghost predicate Valid()
      reads this, shm, shm.ring
    {
      shm.ring.Length == size && size >= 1 && mask == size - 1
    }

    constructor (memory: SharedMemory<T>)
      requires memory.ring.Length >= 1
      ensures Valid() && shm == memory && size == memory.ring.Length
      ensures cachedProd == memory.producer && cachedCons == memory.consumer
    {
      shm := memory;
      size := memory.ring.Length;
      mask := memory.ring.Length - 1;
      cachedProd := memory.producer;
      cachedCons := memory.consumer;
    }

    method NbAvail(nb: nat) returns (entries: nat)
      requires Valid()
      modifies this`cachedProd
      ensures Valid()
      ensures forall pp, pc :: (entries, View(pp, pc)) == R.NbAvail(old(View(pp, pc)), nb)
    {
      entries := Wrap(cachedProd - cachedCons);
      if entries == 0 {
        cachedProd := shm.producer;
        entries := Wrap(cachedProd - cachedCons);
      }
      entries := if entries > nb then nb else entries;
    }

    method Peek(nb: nat) returns (entries: nat, idx: Option<nat>)
      requires Valid()
      modifies this
      ensures Valid()
      ensures forall pp, pc :: (entries, View(pp, pc)) == R.Peek(old(View(pp, pc)), nb)
      ensures idx == if entries > 0 then Some(old(cachedCons)) else None
    {
      entries := NbAvail(nb);
      idx := None;
      if entries > 0 {
        idx := Some(cachedCons);
        cachedCons := Wrap(cachedCons + entries);
      }
    }

    method Cancel(nb: nat)
      requires Valid()
      modifies this`cachedCons
      ensures Valid()
      ensures forall pp, pc :: View(pp, pc) == R.Cancel(old(View(pp, pc)), nb)
    {
      cachedCons := Wrap(cachedCons - nb);
    }

    method Release(nb: nat)
      requires Valid()
      modifies shm`consumer
      ensures Valid()
      ensures forall pp, pc :: View(pp, pc) == R.Release(old(View(pp, pc)), nb)
    {
      shm.consumer := Wrap(shm.consumer + nb);
    }

    /** Loads through xsk_ring_cons__rx_desc() or xsk_ring_cons__comp_addr(). */
    method LoadEntry(idx: nat) returns (v: T)
      requires Valid()
      ensures BitAnd(idx, mask) < size
      ensures forall pp, pc :: v == View(pp, pc).slots[R.SlotOf(View(pp, pc), idx)]
    {
      AndAtMost(idx, mask);
      v := shm.ring[BitAnd(idx, mask)];
    }
  }
}
