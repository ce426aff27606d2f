/**
  The growing arrays of src/core/ngx_array.c in the memory of a pool: pushing appends to the
  sequence of elements, whether the array grows in place at the end of the pool's first block or
  moves, and touches no other memory in use.
 */
module PoolArray {
  import opened Pool
  import opened Wrappers

  /** What memory holds at the addresses where elements start. */
  class Heap {
    var cell: map<nat, int>
  }

  /** Where element i is. */
  function Cell(elts: nat, size: nat, i: nat): nat {
    elts + size * i
  }

  lemma CellInside(elts: nat, size: nat, i: nat, n: nat)
    requires size > 0 && i < n
    ensures elts <= Cell(elts, size, i) && Cell(elts, size, i) + size <= elts + size * n
    ensures size * n > 0
  {
    Mul(size, i + 1, n);
  }

  lemma Mul(size: nat, a: nat, b: nat)
    requires a <= b
    ensures size * a <= size * b && size * (a + 1) == size * a + size && size * (2 * a) == 2 * (size * a)
  {
  }

  lemma CellsApart(elts: nat, size: nat, i: nat, j: nat)
    requires size > 0 && i != j
    ensures Cell(elts, size, i) != Cell(elts, size, j)
  {
    if i < j {
      CellInside(elts, size, i, j);
    } else {
      CellInside(elts, size, j, i);
    }
  }

  /** The memory is the pool's allocation `home` of its blocks, or a large one. */
  ghost predicate Placed(live: seq<Region>, ls: seq<Large>, at: nat, size: nat, home: Option<nat>) {
    if home.Some? then home.value < |live| && live[home.value].at == at && live[home.value].size == size
    else at != 0 && Large(at, size) in ls
  }

  /** Different allocations do not overlap. */
  lemma PlacedApart(bs: seq<Block>, live: seq<Region>, ls: seq<Large>,
                    a: nat, n: nat, home: Option<nat>, b: nat, m: nat, home': Option<nat>)
    requires Blocks(bs) && Regions(bs, live) && Larges(bs, ls)
    requires Placed(live, ls, a, n, home) && Placed(live, ls, b, m, home')
    requires home != home' || (home.None? && a != b)
    ensures !Overlap(a, a + n, b, b + m)
  {
    if home.Some? && home'.Some? {
      if home.value < home'.value {
        assert !Overlap(live[home.value].at, live[home.value].at + n, live[home'.value].at, live[home'.value].at + m);
      } else {
        assert !Overlap(live[home'.value].at, live[home'.value].at + m, live[home.value].at, live[home.value].at + n);
      }
    } else if home.Some? {
      LargeApart(bs, live, ls, home.value, b, m);
    } else if home'.Some? {
      LargeApart(bs, live, ls, home'.value, a, n);
    } else {
      var i :| 0 <= i < |ls| && ls[i] == Large(a, n);
      var j :| 0 <= j < |ls| && ls[j] == Large(b, m);
      if i < j {
        assert !Overlap(ls[i].alloc, ls[i].alloc + n, ls[j].alloc, ls[j].alloc + m);
      } else {
        assert !Overlap(ls[j].alloc, ls[j].alloc + m, ls[i].alloc, ls[i].alloc + n);
      }
    }
  }

  lemma LargeApart(bs: seq<Block>, live: seq<Region>, ls: seq<Large>, h: nat, b: nat, m: nat)
    requires Blocks(bs) && Regions(bs, live) && Larges(bs, ls)
    requires h < |live| && b != 0 && Large(b, m) in ls
    ensures !Overlap(live[h].at, live[h].at + live[h].size, b, b + m)
  {
    var i :| 0 <= i < |ls| && ls[i] == Large(b, m);
    var r := live[h];
    assert Carved(bs, r);
    assert Sane(bs[r.block]);
    assert !Overlap(ls[i].alloc, ls[i].alloc + ls[i].size, bs[r.block].base, bs[r.block].end);
  }

  /** Memory that ends where the first block's allocations end is the last of them. */
  lemma EndsFirstBlock(bs: seq<Block>, live: seq<Region>, ls: seq<Large>, a: nat, n: nat, home: Option<nat>)
    requires Blocks(bs) && Regions(bs, live) && Larges(bs, ls) && Placed(live, ls, a, n, home)
    requires n > 0 && bs != [] && a + n == bs[0].last
    ensures home.Some? && live[home.value].block == 0
  {
    hide Blocks, Regions, Larges;
    FirstIsSane(bs);
    if home.None? {
      LargeOutside(bs, ls, a, n);
    } else {
      RegionInside(bs, live, home.value);
      if live[home.value].block != 0 {
        FirstApart(bs, live[home.value].block);
      }
    }
  }

  lemma FirstIsSane(bs: seq<Block>)
    requires Blocks(bs)
    ensures bs != [] && Sane(bs[0])
  {
  }

  lemma LargeOutside(bs: seq<Block>, ls: seq<Large>, a: nat, n: nat)
    requires Blocks(bs) && Larges(bs, ls) && a != 0 && Large(a, n) in ls
    ensures !Overlap(a, a + n, bs[0].base, bs[0].end)
  {
    var i :| 0 <= i < |ls| && ls[i] == Large(a, n);
    assert !Overlap(ls[i].alloc, ls[i].alloc + ls[i].size, bs[0].base, bs[0].end);
  }

  lemma RegionInside(bs: seq<Block>, live: seq<Region>, h: nat)
    requires Blocks(bs) && Regions(bs, live) && h < |live|
    ensures Carved(bs, live[h]) && Sane(bs[live[h].block])
  {
  }

  lemma FirstApart(bs: seq<Block>, k: nat)
    requires Blocks(bs) && 0 < k < |bs|
    ensures !Overlap(bs[0].base, bs[0].end, bs[k].base, bs[k].end)
  {
  }

  /** Only memory from a up to b has been written. */
  ghost predicate OnlyIn(cell: map<nat, int>, cell': map<nat, int>, a: nat, b: nat) {
    forall p :: p in cell && !(a <= p < b) ==> p in cell' && cell'[p] == cell[p]
  }

  /** The elements at these cells. */
  ghost function Elements(cell: map<nat, int>, elts: nat, size: nat, n: nat): (s: seq<int>)
    ensures |s| == n
  {
    seq(n, i requires 0 <= i < n => if Cell(elts, size, i) in cell then cell[Cell(elts, size, i)] else 0)
  }

  ghost predicate Written(cell: map<nat, int>, elts: nat, size: nat, n: nat) {
    forall i: nat :: i < n ==> Cell(elts, size, i) in cell
  }

  /** An array whose memory does not overlap the memory that was written has the elements it had. */
  lemma OthersUntouched(
      cell: map<nat, int>, cell': map<nat, int>, a: nat, b: nat, elts: nat, size: nat, n: nat, room: nat)
    requires OnlyIn(cell, cell', a, b) && !Overlap(a, b, elts, elts + size * room) && n <= room && size > 0
    requires Written(cell, elts, size, n)
    ensures Written(cell', elts, size, n) && Elements(cell', elts, size, n) == Elements(cell, elts, size, n)
  {
    forall i: nat | i < n
      ensures Cell(elts, size, i) in cell' && cell'[Cell(elts, size, i)] == cell[Cell(elts, size, i)] {
      CellInside(elts, size, i, room);
    }
  }

  class Array {
    const pool: Pool
    const heap: Heap
    const size: nat             // of an element
    var elts: nat
    var nelts: nat
    var nalloc: nat
    ghost var home: Option<nat>

    /** ngx_array_init, with the memory that the pool has given for n elements. */
    constructor (pool: Pool, heap: Heap, n: nat, size: nat, at: nat, ghost home: Option<nat>)
      requires pool.Valid() && size > 0 && n >= 1 && Placed(pool.live, pool.large, at, size * n, home)
      ensures Valid() && Contents() == [] && nalloc == n && this.pool == pool && this.heap == heap
    {
      this.pool, this.heap, this.size := pool, heap, size;
      elts, nelts, nalloc, this.home := at, 0, n, home;
    }

    ghost predicate Valid()
      reads this, pool, heap
    {
      && pool.Valid() && size > 0 && 1 <= nalloc && nelts <= nalloc
      && Placed(pool.live, pool.large, elts, size * nalloc, home)
      && Written(heap.cell, elts, size, nelts)
    }

    ghost function Contents(): seq<int>
      reads this, heap
    {
      Elements(heap.cell, elts, size, nelts)
    }

    /** ngx_memcpy of the elements to memory that is not theirs. */
    method CopyTo(dest: nat, room: nat)
      requires size > 0 && Written(heap.cell, elts, size, nelts) && nelts <= nalloc && nelts <= room
      requires !Overlap(elts, elts + size * nalloc, dest, dest + size * room)
      modifies heap
      ensures Written(heap.cell, dest, size, nelts) && Elements(heap.cell, dest, size, nelts) == old(Contents())
      ensures OnlyIn(old(heap.cell), heap.cell, dest, dest + size * room)
    {
      hide Cell, Overlap;
      ghost var cell := heap.cell;
      var i: nat := 0;
      while i < nelts
        invariant i <= nelts && OnlyIn(cell, heap.cell, dest, dest + size * room)
        invariant forall k: nat :: k < i ==>
          Cell(dest, size, k) in heap.cell && heap.cell[Cell(dest, size, k)] == cell[Cell(elts, size, k)]
        invariant forall k: nat :: k < nelts ==>
          Cell(elts, size, k) in heap.cell && heap.cell[Cell(elts, size, k)] == cell[Cell(elts, size, k)]
      {
        CopyApart(i, dest, room);
        heap.cell := heap.cell[Cell(dest, size, i) := heap.cell[Cell(elts, size, i)]];
        i := i + 1;
      }
    }

    lemma CopyApart(i: nat, dest: nat, room: nat)
      requires size > 0 && i < nelts <= nalloc && nelts <= room
      requires !Overlap(elts, elts + size * nalloc, dest, dest + size * room)
      ensures forall k: nat :: k < nelts ==> Cell(elts, size, k) != Cell(dest, size, i)
      ensures forall k: nat :: k < i ==> Cell(dest, size, k) != Cell(dest, size, i)
      ensures dest <= Cell(dest, size, i) < dest + size * room
    {
      hide Cell;
      CellInside(dest, size, i, room);
      forall k: nat | k < nelts ensures Cell(elts, size, k) != Cell(dest, size, i) {
        CellInside(elts, size, k, nalloc);
      }
      forall k: nat | k < i ensures Cell(dest, size, k) != Cell(dest, size, i) {
        CellsApart(dest, size, k, i);
      }
    }

    /** The array's memory is the last allocation of the pool's first block, and n more elements fit. */
    predicate CanGrow(n: nat)
      reads this, pool
    {
      && pool.blocks != [] && elts + size * nalloc == pool.blocks[0].last
      && pool.blocks[0].last + size * n <= pool.blocks[0].end
    }

    /** In place: only the end of the block's allocations moves. */
    method GrowInPlace(n: nat)
      requires Valid() && CanGrow(n)
      modifies this`nalloc, pool
      ensures Valid() && Contents() == old(Contents()) && nalloc == old(nalloc) + n
      ensures OthersKept(old(pool.live), pool.live, old(pool.large), pool.large, home)
    {
      hide Blocks, Regions, Larges, Tired, SameSize, Elements, Written;
      CellInside(elts, size, 0, nalloc);
      EndsFirstBlock(pool.blocks, pool.live, pool.large, elts, size * nalloc, home);
      Grows(size, nalloc, n);
      pool.Grow(home.value, size * n);
      nalloc := nalloc + n;
    }

    /** In new memory for `room` elements; the old memory stays with the pool. */
    method Move(room: nat, q: nat, p: nat) returns (ok: bool)
      requires Valid() && nelts <= room && 1 <= room
      requires pool.Memalign(p) && (size * room > pool.max ==> pool.Malloc(q, size * room, p))
      modifies this`elts, this`nalloc, this`home, pool, heap
      ensures Valid() && Contents() == old(Contents())
      ensures ok <==> !old(pool.Refuses(size * room, true, q, p))
      ensures ok ==> nalloc == room && OnlyIn(old(heap.cell), heap.cell, elts, elts + size * nalloc)
      ensures ok && home.Some? ==> home.value >= |old(pool.live)|
      ensures ok && home.None? ==> elts == q != 0 && size * room > pool.max
      ensures !ok ==> heap.cell == old(heap.cell) && elts == old(elts) && nalloc == old(nalloc) && home == old(home)
      ensures OthersKept(old(pool.live), pool.live, old(pool.large), pool.large, None)
    {
      hide Blocks, Regions, Larges, Tired, SameSize, Elements, Written, Overlap, Unused;
      CellInside(elts, size, 0, nalloc);
      ghost var bs, live, ls := pool.blocks, pool.live, pool.large;
      var r := pool.Palloc(size * room, true, q, p);
      PlacedStays(live, pool.live, ls, pool.large, elts, size * nalloc, home);
      if r == Null {
        return false;
      }
      ghost var home' := if size * room <= pool.max then Some(|pool.live| - 1) else None;
      CellInside(elts, size, 0, room);
      if home' == None && home == None {
        UnusedIsNew(bs, ls, q, size * room, elts, size * nalloc);
      }
      PlacedApart(pool.blocks, pool.live, pool.large, elts, size * nalloc, home, r.addr, size * room, home');
      CopyTo(r.addr, room);
      elts, nalloc, home := r.addr, room, home';
      ok := true;
    }

    /** What is left to a caller who pushes: the new element is at the end, and written by the caller. */
    method Append(v: int)
      requires Valid() && nelts < nalloc
      modifies this`nelts, heap
      ensures Valid() && Contents() == old(Contents()) + [v]
      ensures OnlyIn(old(heap.cell), heap.cell, elts, elts + size * nalloc)
    {
      hide Cell;
      CellInside(elts, size, nelts, nalloc);
      forall i: nat | i < nelts ensures Cell(elts, size, i) != Cell(elts, size, nelts) {
        CellsApart(elts, size, i, nelts);
      }
      heap.cell := heap.cell[Cell(elts, size, nelts) := v];
      nelts := nelts + 1;
    }

    /** The array is full for n more, cannot grow where it is, and the pool has no memory for `room` elements. */
    ghost predicate Stuck(n: nat, room: nat, q: nat, p: nat)
      reads this, pool
    {
      nelts + n > nalloc && !CanGrow(n) && pool.Refuses(size * room, true, q, p)
    }

    /** ngx_array_push, with the write of the new element. */
    method Push(v: int, q: nat, p: nat) returns (ok: bool)
      requires Valid() && pool.Memalign(p)
      requires size * (2 * nalloc) > pool.max ==> pool.Malloc(q, size * (2 * nalloc), p)
      modifies this`elts, this`nelts, this`nalloc, this`home, pool, heap
      ensures Valid() && Contents() == old(Contents()) + if ok then [v] else []
      ensures ok <==> !old(Stuck(1, 2 * nalloc, q, p))
      ensures OnlyIn(old(heap.cell), heap.cell, elts, elts + size * nalloc)
      ensures OthersKept(old(pool.live), pool.live, old(pool.large), pool.large, old(home))
      ensures (home == old(home) && elts == old(elts)) || (home.Some? && home.value >= |old(pool.live)|)
              || (home.None? && elts == q != 0)
    {
      hide Elements, Written, Placed;
      if nelts == nalloc {
        if CanGrow(1) {
          GrowInPlace(1);
        } else {
          ok := Move(2 * nalloc, q, p);
          if !ok {
            return;
          }
        }
      }
      Append(v);
      ok := true;
    }

    /** ngx_array_push_n, with the writes of the new elements. */
    method PushN(vs: seq<int>, q: nat, p: nat) returns (ok: bool)
      requires Valid() && pool.Memalign(p)
      requires size * Doubled(|vs|, nalloc) > pool.max ==> pool.Malloc(q, size * Doubled(|vs|, nalloc), p)
      modifies this`elts, this`nelts, this`nalloc, this`home, pool, heap
      ensures Valid() && Contents() == old(Contents()) + if ok then vs else []
      ensures ok <==> !old(Stuck(|vs|, Doubled(|vs|, nalloc), q, p))
      ensures OnlyIn(old(heap.cell), heap.cell, elts, elts + size * nalloc)
      ensures OthersKept(old(pool.live), pool.live, old(pool.large), pool.large, old(home))
      ensures (home == old(home) && elts == old(elts)) || (home.Some? && home.value >= |old(pool.live)|)
              || (home.None? && elts == q != 0)
    {
      hide Elements, Written, Placed;
      var n := |vs|;
      if nelts + n > nalloc {
        if CanGrow(n) {
          GrowInPlace(n);
        } else {
          ok := Move(Doubled(n, nalloc), q, p);
          if !ok {
            return;
          }
        }
      }
      AppendAll(vs);
      ok := true;
    }

    method AppendAll(vs: seq<int>)
      requires Valid() && nelts + |vs| <= nalloc
      modifies this`nelts, heap
      ensures Valid() && Contents() == old(Contents()) + vs
      ensures OnlyIn(old(heap.cell), heap.cell, elts, elts + size * nalloc)
    {
      hide Elements, Written, Placed, Blocks, Regions, Larges, Tired, SameSize;
      for i := 0 to |vs|
        invariant Valid() && Contents() == old(Contents()) + vs[..i] && nelts == old(nelts) + i
        invariant OnlyIn(old(heap.cell), heap.cell, elts, elts + size * nalloc)
      {
        Append(vs[i]);
        assert vs[..i + 1] == vs[..i] + [vs[i]];
      }
      assert vs[..|vs|] == vs;
    }
  }

  /** Twice the larger of n and the capacity. */
  function Doubled(n: nat, nalloc: nat): nat {
    2 * if n >= nalloc then n else nalloc
  }

  /** It has room for the old elements and the new ones, and is no more than twice what one of them needs. */
  lemma DoubledIsEnough(n: nat, nalloc: nat, nelts: nat)
    requires nelts <= nalloc
    ensures nelts + n <= Doubled(n, nalloc) && (Doubled(n, nalloc) == 2 * n || Doubled(n, nalloc) == 2 * nalloc)
  {
  }

  /** Pushing to one array leaves another one of the same pool as it is. */
  method PushBeside(a: Array, b: Array, v: int, q: nat, p: nat) returns (ok: bool)
    requires a != b && a.pool == b.pool && a.heap == b.heap
    requires a.home != b.home || (a.home.None? && a.elts != b.elts)
    requires a.Valid() && b.Valid() && a.pool.Memalign(p)
    requires a.pool.Malloc(q, a.size * (2 * a.nalloc), p)
    modifies a`elts, a`nelts, a`nalloc, a`home, a.pool, a.heap
    ensures a.Valid() && a.Contents() == old(a.Contents()) + if ok then [v] else []
    ensures ok <==> !old(a.Stuck(1, 2 * a.nalloc, q, p))
    ensures b.Valid() && b.Contents() == old(b.Contents())
  {
    hide Elements, Written, Blocks, Regions, Larges, Tired, SameSize, Overlap, Unused, Placed, OthersKept, OnlyIn;
    ghost var live, ls, bs := a.pool.live, a.pool.large, a.pool.blocks;
    ghost var cell, home, elts := a.heap.cell, a.home, a.elts;
    CellInside(b.elts, b.size, 0, b.nalloc);
    CellInside(a.elts, a.size, 0, 2 * a.nalloc);
    if b.home.None? && q != 0 {
      LargeIsNew(bs, live, ls, q, a.size * (2 * a.nalloc), b.elts, b.size * b.nalloc);
    }
    ok := a.Push(v, q, p);
    PlacedOther(live, a.pool.live, ls, a.pool.large, b.elts, b.size * b.nalloc, b.home, home);
    OtherHome(live, ls, b.elts, b.size * b.nalloc, b.home);
    PlacedApart(a.pool.blocks, a.pool.live, a.pool.large, a.elts, a.size * a.nalloc, a.home,
                b.elts, b.size * b.nalloc, b.home);
    OthersUntouched(cell, a.heap.cell, a.elts, a.elts + a.size * a.nalloc, b.elts, b.size, b.nelts, b.nalloc);
  }

  lemma LargeIsNew(bs: seq<Block>, live: seq<Region>, ls: seq<Large>, q: nat, m: nat, a: nat, n: nat)
    requires Unused(bs, ls, q, m) && q != 0 && m > 0 && n > 0 && Placed(live, ls, a, n, None)
    ensures q != a
  {
    UnusedIsNew(bs, ls, q, m, a, n);
  }

  lemma OtherHome(live: seq<Region>, ls: seq<Large>, at: nat, n: nat, home: Option<nat>)
    requires Placed(live, ls, at, n, home)
    ensures home.Some? ==> home.value < |live|
  {
  }

  lemma PlacedOther(live: seq<Region>, live': seq<Region>, ls: seq<Large>, ls': seq<Large>, at: nat, n: nat,
                    home: Option<nat>, changed: Option<nat>)
    requires Placed(live, ls, at, n, home) && OthersKept(live, live', ls, ls', changed)
    requires changed.Some? ==> home != changed
    ensures Placed(live', ls', at, n, home)
  {
  }

  lemma Grows(size: nat, a: nat, n: nat)
    ensures size * (a + n) == size * a + size * n
  {
  }

  /** All other allocations are where they were. */
  ghost predicate OthersKept(
      live: seq<Region>, live': seq<Region>, ls: seq<Large>, ls': seq<Large>, home: Option<nat>) {
    && |live| <= |live'|
    && (forall i :: 0 <= i < |live| && home != Some(i) ==> live'[i] == live[i])
    && (forall l :: l in ls && l.alloc != 0 ==> l in ls')
  }

  lemma PlacedStays(
      live: seq<Region>, live': seq<Region>, ls: seq<Large>, ls': seq<Large>, at: nat, n: nat, home: Option<nat>)
    requires Placed(live, ls, at, n, home) && OthersKept(live, live', ls, ls', None)
    ensures Placed(live', ls', at, n, home)
  {
  }

  lemma UnusedIsNew(bs: seq<Block>, ls: seq<Large>, q: nat, m: nat, a: nat, n: nat)
    requires Unused(bs, ls, q, m) && q != 0 && m > 0 && a != 0 && n > 0 && Large(a, n) in ls
    ensures q != a
  {
  }
}
