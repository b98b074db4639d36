/** Shared-memory pools and buffers of wayland-shm.c.  A pool is mapped while it is in `pools`;
    unmapping it takes it out, so touching it afterwards cannot be proved safe. */
module Shm {
  import opened Basics

  datatype Pool = Pool(refcount: int, size: int, hasResource: bool)

  datatype Buffer = Buffer(offset: int, width: int, height: int, stride: int, format: nat, pool: nat)

  // ----- the bounds test -----

  /** The condition of `shm_pool_create_buffer`, with C's division; its operands are positive. */
  predicate Refused(offset: int, width: int, height: int, stride: int, size: int) {
    || offset < 0 || width <= 0 || height <= 0 || stride < width
    || INT32_MAX / stride <= height
    || offset > size - stride * height
  }

  /** Byte `x` of row `y` of a buffer is inside a pool of this size. */
  predicate Inside(offset: int, stride: int, size: int, y: int, x: int) { 0 <= offset + y * stride + x < size }

  lemma TimesMonotone(k: int, a: int, b: int)
    requires 0 <= k && a <= b
    ensures k * a <= k * b
  {
  }

  lemma DivisionTest(stride: int, height: int)
    requires stride > 0 && height > 0
    ensures INT32_MAX / stride > height <==> stride * (height + 1) <= INT32_MAX
  {
    var q := INT32_MAX / stride;
    assert INT32_MAX == stride * q + INT32_MAX % stride;
    if q > height {
      TimesMonotone(stride, height + 1, q);
    } else {
      TimesMonotone(stride, q + 1, height + 1);
      assert stride * (q + 1) == stride * q + stride;
    }
  }

  /** The test, made in 32-bit arithmetic, says what it means to: nothing in it overflows, and it
      passes exactly the buffers of positive size that end inside the pool (and whose rows, with
      one to spare, fit 31 bits). */
  lemma BoundsTest(offset: int, width: int, height: int, stride: int, size: int)
    requires IsInt32(offset) && IsInt32(width) && IsInt32(height) && IsInt32(stride) && 0 < size <= INT32_MAX
    ensures !Refused(offset, width, height, stride, size) <==>
      && offset >= 0 && 0 < width <= stride && height > 0
      && stride * (height + 1) <= INT32_MAX
      && offset + stride * height <= size
    ensures 0 < width <= stride && height > 0 && INT32_MAX / stride > height ==>
      IsInt32(stride * height) && IsInt32(size - stride * height)
  {
    if stride > 0 && height > 0 {
      DivisionTest(stride, height);
      TimesMonotone(stride, 0, height);
      assert stride * (height + 1) == stride * height + stride;
    }
  }

  /** One past the last byte of a buffer, in its pool. */
  function End(b: Buffer): int { b.offset + b.stride * b.height }

  predicate Fits(b: Buffer, size: int) {
    && b.offset >= 0 && b.height > 0 && 0 < b.width <= b.stride
    && b.stride * b.height <= INT32_MAX && End(b) <= size
  }

  /** So every byte of every row is in the pool. */
  lemma RowsInside(b: Buffer, size: int, y: int, x: int)
    requires Fits(b, size) && 0 <= y < b.height && 0 <= x < b.stride
    ensures Inside(b.offset, b.stride, size, y, x)
  {
    TimesMonotone(b.stride, y + 1, b.height);
    TimesMonotone(b.stride, 0, y);
    assert b.stride * (y + 1) == y * b.stride + b.stride;
  }

  // ----- pools and buffers over time -----

  function BuffersOf(buffers: map<nat, Buffer>, p: nat): set<nat> {
    set b | b in buffers && buffers[b].pool == p
  }

  lemma BufferAdded(buffers: map<nat, Buffer>, b: nat, buffer: Buffer, p: nat)
    requires b !in buffers
    ensures |BuffersOf(buffers[b := buffer], p)| == |BuffersOf(buffers, p)| + if buffer.pool == p then 1 else 0
  {
    assert BuffersOf(buffers[b := buffer], p) == BuffersOf(buffers, p) + if buffer.pool == p then {b} else {};
  }

  lemma BufferRemoved(buffers: map<nat, Buffer>, b: nat, p: nat)
    requires b in buffers
    ensures |BuffersOf(buffers - {b}, p)| == |BuffersOf(buffers, p)| - if buffers[b].pool == p then 1 else 0
  {
    assert BuffersOf(buffers, p) == BuffersOf(buffers - {b}, p) + if buffers[b].pool == p then {b} else {};
  }

  /** How many hold a pool: its resource, its buffers, and the references taken. */
  ghost function Holders(p: nat, hasResource: bool, buffers: map<nat, Buffer>, taken: multiset<nat>): nat {
    (if hasResource then 1 else 0) + |BuffersOf(buffers, p)| + taken[p]
  }

  ghost predicate Counted(pools: map<nat, Pool>, buffers: map<nat, Buffer>, taken: multiset<nat>) {
    && (forall p :: p in pools ==> pools[p].refcount == Holders(p, pools[p].hasResource, buffers, taken) > 0)
    && (forall p :: p in taken ==> p in pools)
  }

  ghost predicate Contained(pools: map<nat, Pool>, buffers: map<nat, Buffer>) {
    && (forall p :: p in pools ==> 0 < pools[p].size <= INT32_MAX)
    && (forall b :: b in buffers ==> buffers[b].pool in pools && Fits(buffers[b], pools[buffers[b].pool].size))
  }

  function Referenced(pools: map<nat, Pool>, p: nat): map<nat, Pool>
    requires p in pools
  { pools[p := pools[p].(refcount := pools[p].refcount + 1)] }

  /** `shm_pool_unref` */
  function Unreferenced(pools: map<nat, Pool>, p: nat): map<nat, Pool>
    requires p in pools
  {
    if pools[p].refcount == 1 then pools - {p} else pools[p := pools[p].(refcount := pools[p].refcount - 1)]
  }

  lemma Inhabited(buffers: map<nat, Buffer>, b: nat)
    requires b in buffers
    ensures |BuffersOf(buffers, buffers[b].pool)| > 0
  {
    assert b in BuffersOf(buffers, buffers[b].pool);
  }

  /** Dropping one holder of `p`: nothing that is still held is unmapped. */
  lemma DropHolder(pools: map<nat, Pool>, p: nat, buffers: map<nat, Buffer>, taken: multiset<nat>)
    requires p in pools && pools[p].refcount == Holders(p, pools[p].hasResource, buffers, taken) + 1
    requires forall q :: q in pools && q != p ==> pools[q].refcount == Holders(q, pools[q].hasResource, buffers, taken) > 0
    requires forall q :: q in taken ==> q in pools
    requires Contained(pools, buffers)
    ensures Counted(Unreferenced(pools, p), buffers, taken) && Contained(Unreferenced(pools, p), buffers)
    ensures p in Unreferenced(pools, p) <==> Holders(p, pools[p].hasResource, buffers, taken) > 0
  {
    var pools' := Unreferenced(pools, p);
    hide Fits;
    forall b | b in buffers
      ensures buffers[b].pool in pools' && pools'[buffers[b].pool].size == pools[buffers[b].pool].size
    {
      Inhabited(buffers, b);
    }
  }

  lemma AddHolder(pools: map<nat, Pool>, buffers: map<nat, Buffer>, taken: multiset<nat>, b: nat, buffer: Buffer)
    requires Counted(pools, buffers, taken) && Contained(pools, buffers)
    requires b !in buffers && buffer.pool in pools && Fits(buffer, pools[buffer.pool].size)
    ensures Counted(Referenced(pools, buffer.pool), buffers[b := buffer], taken)
    ensures Contained(Referenced(pools, buffer.pool), buffers[b := buffer])
  {
    hide Fits, BuffersOf;
    forall q { BufferAdded(buffers, b, buffer, q); }
  }

  /** A reference taken and dropped at once leaves nothing changed. */
  lemma UnrefUndoes(pools: map<nat, Pool>, p: nat, buffers: map<nat, Buffer>, taken: multiset<nat>)
    requires p in pools && Counted(pools, buffers, taken)
    ensures Unreferenced(Referenced(pools, p), p) == pools
  {
    hide Holders;
  }

  lemma PoolAdded(pools: map<nat, Pool>, buffers: map<nat, Buffer>, taken: multiset<nat>, p: nat, size: int)
    requires Counted(pools, buffers, taken) && Contained(pools, buffers)
    requires p !in pools && 0 < size <= INT32_MAX
    ensures Counted(pools[p := Pool(1, size, true)], buffers, taken)
    ensures Contained(pools[p := Pool(1, size, true)], buffers)
  {
    hide Fits;
    assert BuffersOf(buffers, p) == {};
  }

  lemma ReferenceTaken(pools: map<nat, Pool>, buffers: map<nat, Buffer>, taken: multiset<nat>, p: nat)
    requires Counted(pools, buffers, taken) && Contained(pools, buffers) && p in pools
    ensures Counted(Referenced(pools, p), buffers, taken + multiset{p})
    ensures Contained(Referenced(pools, p), buffers)
  {
    hide Fits, BuffersOf;
  }

  /** A buffer the test lets pass, in the terms of what it means. */
  predicate Acceptable(b: Buffer, size: int) {
    && b.offset >= 0 && 0 < b.width <= b.stride && b.height > 0
    && b.stride * (b.height + 1) <= INT32_MAX && End(b) <= size
  }

  lemma AcceptableFits(b: Buffer, size: int)
    requires IsInt32(b.offset) && IsInt32(b.width) && IsInt32(b.height) && IsInt32(b.stride) && 0 < size <= INT32_MAX
    ensures !Refused(b.offset, b.width, b.height, b.stride, size) <==> Acceptable(b, size)
    ensures Acceptable(b, size) ==> Fits(b, size)
  {
    BoundsTest(b.offset, b.width, b.height, b.stride, size);
    assert b.stride * (b.height + 1) == b.stride * b.height + b.stride;
  }

  class Shm {
    var pools: map<nat, Pool>
    var buffers: map<nat, Buffer>
    var formats: set<nat>
    /** The references the compositor took with `wl_shm_buffer_ref_pool` and still holds. */
    ghost var taken: multiset<nat>

    ghost predicate Valid() reads this { Counted(pools, buffers, taken) && Contained(pools, buffers) }

    constructor (formats: set<nat>)
      ensures Valid() && pools == map[] && buffers == map[] && taken == multiset{} && this.formats == formats
    {
      pools, buffers, taken := map[], map[], multiset{};
      this.formats := formats;
    }

    /** No buffer reaches outside memory that is mapped. */
    lemma EveryByteMapped(b: nat, y: int, x: int)
      requires Valid() && b in buffers && 0 <= y < buffers[b].height && 0 <= x < buffers[b].stride
      ensures buffers[b].pool in pools
      ensures Inside(buffers[b].offset, buffers[b].stride, pools[buffers[b].pool].size, y, x)
    {
      RowsInside(buffers[b], pools[buffers[b].pool].size, y, x);
    }

    /** `shm_create_pool`, at an address not in use; `mapped` is whether `mmap` succeeds. */
    method CreatePool(p: nat, size: int, mapped: bool) returns (ok: bool)
      requires Valid() && p !in pools && IsInt32(size)
      modifies this`pools
      ensures Valid() && ok == (size > 0 && mapped)
      ensures pools == if ok then old(pools)[p := Pool(1, size, true)] else old(pools)
    {
      ok := size > 0 && mapped;
      if ok {
        PoolAdded(pools, buffers, taken, p, size);
        hide *;
        pools := pools[p := Pool(1, size, true)];
      }
    }

    /** `shm_pool_create_buffer`; `created` is whether the buffer's resource could be. */
    method CreateBuffer(p: nat, b: nat, buffer: Buffer, created: bool) returns (ok: bool)
      requires Valid() && p in pools && b !in buffers && buffer.pool == p
      requires IsInt32(buffer.offset) && IsInt32(buffer.width) && IsInt32(buffer.height) && IsInt32(buffer.stride)
      modifies this`pools, this`buffers
      ensures Valid()
      ensures ok <==> buffer.format in formats && created && Acceptable(buffer, old(pools)[p].size)
      ensures buffers == if ok then old(buffers)[b := buffer] else old(buffers)
      ensures pools == if ok then Referenced(old(pools), p) else old(pools)
    {
      hide BuffersOf, Holders, Refused, Fits, Acceptable, Counted;
      var size := pools[p].size;
      AcceptableFits(buffer, size);
      if buffer.format !in formats { return false; }
      if Refused(buffer.offset, buffer.width, buffer.height, buffer.stride, size) { return false; }
      AddHolder(pools, buffers, taken, b, buffer);
      UnrefUndoes(pools, p, buffers, taken);
      hide Fits, Acceptable, Counted, Contained, Unreferenced;
      pools := pools[p := pools[p].(refcount := pools[p].refcount + 1)];
      if !created {
        Unref(p);
        return false;
      }
      buffers := buffers[b := buffer];
      ok := true;
    }

    /** `shm_pool_unref` */
    method Unref(p: nat)
      requires p in pools
      modifies this`pools
      ensures pools == Unreferenced(old(pools), p)
    {
      var count := pools[p].refcount - 1;
      if count != 0 { pools := pools[p := pools[p].(refcount := count)]; return; }
      pools := pools - {p};
    }

    /** `destroy_buffer` */
    method DestroyBuffer(b: nat)
      requires Valid() && b in buffers
      modifies this`pools, this`buffers
      ensures Valid() && buffers == old(buffers) - {b}
      ensures pools == Unreferenced(old(pools), old(buffers)[b].pool)
    {
      hide Fits, Unreferenced;
      var p := buffers[b].pool;
      forall q { BufferRemoved(buffers, b, q); }
      DropHolder(pools, p, buffers - {b}, taken);
      Unref(p);
      buffers := buffers - {b};
    }

    /** `destroy_pool`: the resource goes; the memory stays while anything else holds it. */
    method DestroyPool(p: nat)
      requires Valid() && p in pools && pools[p].hasResource
      modifies this`pools
      ensures Valid()
      ensures pools == Unreferenced(old(pools)[p := old(pools)[p].(hasResource := false)], p)
      ensures p in pools <==> BuffersOf(buffers, p) != {} || taken[p] > 0
    {
      hide Fits, Unreferenced;
      pools := pools[p := pools[p].(hasResource := false)];
      DropHolder(pools, p, buffers, taken);
      Unref(p);
    }

    /** `shm_pool_resize`: pools only grow; `mapped` is whether `mremap` succeeds. */
    method Resize(p: nat, size: int, mapped: bool) returns (ok: bool)
      requires Valid() && p in pools && IsInt32(size)
      modifies this`pools
      ensures Valid() && ok == (size >= old(pools)[p].size && mapped)
      ensures pools == if ok then old(pools)[p := old(pools)[p].(size := size)] else old(pools)
    {
      ok := size >= pools[p].size && mapped;
      if ok { pools := pools[p := pools[p].(size := size)]; }
    }

    /** `wl_shm_buffer_ref_pool` */
    method RefPool(b: nat) returns (p: nat)
      requires Valid() && b in buffers
      modifies this`pools, this`taken
      ensures Valid() && p == buffers[b].pool && taken == old(taken) + multiset{p}
      ensures pools == Referenced(old(pools), p)
    {
      p := buffers[b].pool;
      ReferenceTaken(pools, buffers, taken, p);
      hide Counted, Contained;
      pools := pools[p := pools[p].(refcount := pools[p].refcount + 1)];
      taken := taken + multiset{p};
    }

    /** `wl_shm_pool_unref`, of a reference taken with `RefPool` */
    method UnrefPool(p: nat)
      requires Valid() && p in taken
      modifies this`pools, this`taken
      ensures Valid() && taken == old(taken) - multiset{p}
      ensures pools == Unreferenced(old(pools), p)
      ensures p in pools <==> old(pools)[p].hasResource || BuffersOf(buffers, p) != {} || taken[p] > 0
    {
      hide Fits, Unreferenced;
      taken := taken - multiset{p};
      DropHolder(pools, p, buffers, taken);
      Unref(p);
    }
  }
}
