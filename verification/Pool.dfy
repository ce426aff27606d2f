/**
  The memory pools of src/core/ngx_palloc.c: small allocations carved from a chain of blocks, large
  ones from malloc, and the counters that take full blocks out of the search.  What malloc and
  memalign return is a parameter; it never overlaps what they returned before and is still in use.
 */
module Pool {

  const TWO64 := 0x1_0000_0000_0000_0000
  const ALIGNMENT := 8          // NGX_ALIGNMENT
  const POOL_ALIGNMENT := 16    // NGX_POOL_ALIGNMENT
  const DATA := 32              // sizeof(ngx_pool_data_t), at the start of every block
  const POOL := 80              // sizeof(ngx_pool_t), at the start of the first

  /** ngx_pool_data_t, with the address it is at. */
  datatype Block = Block(base: nat, last: nat, end: nat, failed: nat)

  /** Memory carved from a block. */
  datatype Region = Region(block: nat, at: nat, size: nat)

  /** Memory from malloc; address 0 is NULL, for an entry that was freed. */
  datatype Large = Large(alloc: nat, size: nat)

  datatype Result = Null | At(addr: nat)

  // ---------- alignment and room ----------

  /** ngx_align_ptr(p, NGX_ALIGNMENT) */
  function AlignPtr(p: nat): (r: nat)
    ensures p <= r < p + ALIGNMENT && r % ALIGNMENT == 0
  {
    p + 7 - (p + 7) % 8
  }

  /** (size_t) (end - m) >= size, where a negative difference becomes a huge one. */
  predicate HasRoom(m: nat, end: nat, size: nat) {
    (end - m) % TWO64 >= size
  }

  /** Where an allocation would start in a block. */
  function Start(b: Block, align: bool): nat {
    if align then AlignPtr(b.last) else b.last
  }

  /** No block from c on has so much room. */
  ghost predicate NoRoom(bs: seq<Block>, c: nat, size: nat, align: bool) {
    forall k :: c <= k < |bs| ==> Start(bs[k], align) + size > bs[k].end
  }

  /**
    The test for room is right for every size exactly if aligning does not pass the end of the block,
    as it never does when blocks end at aligned addresses.
  */
  lemma RoomIsRight(b: Block, align: bool)
    requires b.last <= b.end < TWO64 - ALIGNMENT
    ensures var m := Start(b, align);
      (forall size: nat :: 0 < size < TWO64 / 2 ==> (HasRoom(m, b.end, size) <==> m + size <= b.end)) <==> m <= b.end
    ensures b.end % ALIGNMENT == 0 ==> Start(b, align) <= b.end
  {
    var m := Start(b, align);
    if m <= b.end {
      RoomOf(m, b.end);
    } else {
      assert HasRoom(m, b.end, 1) by { Negative(b.end - m); }
    }
    if b.end % ALIGNMENT == 0 {
      AlignedEnd(b.last, b.end);
    }
  }

  /** A pool of 100 bytes with 17 unaligned ones taken: behind its end one more byte seems to fit. */
  lemma RoomPastTheEnd()
    ensures var b := Block(16, 16 + POOL + 17, 16 + 100, 0);
      Start(b, true) == 120 > b.end && HasRoom(120, b.end, 1)
  {
    Negative(116 - 120);
  }

  lemma RoomOf(m: nat, end: nat)
    requires m <= end < TWO64
    ensures forall size: nat :: HasRoom(m, end, size) <==> m + size <= end
  {
  }

  lemma Negative(x: int)
    requires -ALIGNMENT <= x < 0
    ensures x % TWO64 == x + TWO64
  {
  }

  lemma AlignedEnd(last: nat, end: nat)
    requires last <= end && end % ALIGNMENT == 0
    ensures AlignPtr(last) <= end
  {
  }

  // ---------- what a pool keeps ----------

  ghost predicate Sane(b: Block) {
    && b.base > 0 && b.base % POOL_ALIGNMENT == 0 && b.end % ALIGNMENT == 0 && b.end < TWO64
    && b.base + DATA <= b.last <= b.end
  }

  /** The memory from a up to b and that from c up to d have a byte in common. */
  predicate Overlap(a: nat, b: nat, c: nat, d: nat) {
    a < b && c < d && a < d && c < b
  }

  /** No two blocks overlap. */
  ghost predicate Blocks(bs: seq<Block>) {
    && bs != []
    && (forall i :: 0 <= i < |bs| ==> Sane(bs[i]))
    && forall i, j :: 0 <= i < j < |bs| ==> !Overlap(bs[i].base, bs[i].end, bs[j].base, bs[j].end)
  }

  /** The region is in use in its block. */
  ghost predicate Carved(bs: seq<Block>, r: Region) {
    r.block < |bs| && bs[r.block].base + DATA <= r.at && r.at + r.size <= bs[r.block].last
  }

  ghost predicate Regions(bs: seq<Block>, live: seq<Region>) {
    && (forall i :: 0 <= i < |live| ==> Carved(bs, live[i]))
    && forall i, j :: 0 <= i < j < |live| ==>
      !Overlap(live[i].at, live[i].at + live[i].size, live[j].at, live[j].at + live[j].size)
  }

  /** Large memory overlaps neither other large memory nor a block. */
  ghost predicate Larges(bs: seq<Block>, ls: seq<Large>) {
    && (forall i, k :: 0 <= i < |ls| && 0 <= k < |bs| && ls[i].alloc != 0 ==>
          !Overlap(ls[i].alloc, ls[i].alloc + ls[i].size, bs[k].base, bs[k].end))
    && forall i, j :: 0 <= i < j < |ls| && ls[i].alloc != 0 && ls[j].alloc != 0 ==>
      !Overlap(ls[i].alloc, ls[i].alloc + ls[i].size, ls[j].alloc, ls[j].alloc + ls[j].size)
  }

  /** From the current block on, no block has failed more often than one before it. */
  ghost predicate Tired(bs: seq<Block>, current: nat) {
    current < |bs| && forall i, j :: current <= i < j < |bs| ==> bs[i].failed >= bs[j].failed
  }

  /** What malloc or memalign may return: nothing, or memory that nobody uses. */
  ghost predicate Unused(bs: seq<Block>, ls: seq<Large>, p: nat, size: nat) {
    p != 0 ==>
    && (forall k :: 0 <= k < |bs| ==> !Overlap(p, p + size, bs[k].base, bs[k].end))
    && (forall i :: 0 <= i < |ls| && ls[i].alloc != 0 ==> !Overlap(p, p + size, ls[i].alloc, ls[i].alloc + ls[i].size))
  }

  /** Carving the next bytes of a block. */
  lemma CarveKeeps(bs: seq<Block>, live: seq<Region>, ls: seq<Large>, current: nat, k: nat, m: nat, size: nat)
    requires Blocks(bs) && Regions(bs, live) && Larges(bs, ls) && Tired(bs, current)
    requires k < |bs| && bs[k].last <= m && m + size <= bs[k].end
    ensures var bs' := bs[k := bs[k].(last := m + size)];
      && Blocks(bs') && Regions(bs', live + [Region(k, m, size)]) && Larges(bs', ls) && Tired(bs', current)
  {
    hide Overlap;
    var bs', r := bs[k := bs[k].(last := m + size)], Region(k, m, size);
    forall i | 0 <= i < |live|
      ensures Carved(bs', live[i]) && !Overlap(live[i].at, live[i].at + live[i].size, r.at, r.at + r.size)
    {
      RegionBefore(bs, live[i], k, m, size);
    }
  }

  lemma RegionBefore(bs: seq<Block>, r: Region, k: nat, m: nat, size: nat)
    requires Blocks(bs) && Carved(bs, r) && k < |bs| && bs[k].last <= m && m + size <= bs[k].end
    ensures !Overlap(r.at, r.at + r.size, m, m + size)
  {
    assert Sane(bs[k]) && Sane(bs[r.block]);
    if r.block < k {
      assert !Overlap(bs[r.block].base, bs[r.block].end, bs[k].base, bs[k].end);
    } else if k < r.block {
      assert !Overlap(bs[k].base, bs[k].end, bs[r.block].base, bs[r.block].end);
    }
  }

  // ---------- a new block ----------

  /** The blocks from `current` on, but for the last, have failed once more. */
  function Failed(bs: seq<Block>, current: nat): (r: seq<Block>)
    ensures |r| == |bs|
    ensures forall i :: 0 <= i < |bs| ==>
      r[i] == bs[i].(failed := bs[i].failed + if current <= i < |bs| - 1 then 1 else 0)
  {
    seq(|bs|, i requires 0 <= i < |bs| => bs[i].(failed := bs[i].failed + if current <= i < |bs| - 1 then 1 else 0))
  }

  /** The search starts behind the blocks that had failed more than four times before. */
  ghost predicate NextCurrent(bs: seq<Block>, current: nat, c: nat) {
    && current <= c < |bs|
    && (forall i :: current <= i < c ==> bs[i].failed > 4)
    && (c < |bs| - 1 ==> bs[c].failed <= 4)
  }

  /** So a block is searched until it has failed six times, and not after that, unless it is the last. */
  lemma PassedAfterSix(bs: seq<Block>, current: nat, c: nat, i: nat)
    requires NextCurrent(bs, current, c) && current <= i < |bs| - 1
    ensures i < c ==> Failed(bs, current)[i].failed >= 6
    ensures i == c ==> Failed(bs, current)[i].failed <= 5
    ensures Failed(bs, current)[i].failed == bs[i].failed + 1
  {
  }

  lemma NewBlockKeeps(bs: seq<Block>, live: seq<Region>, ls: seq<Large>, current: nat, c: nat, added: Block, r: Region)
    requires Blocks(bs) && Regions(bs, live) && Larges(bs, ls) && Tired(bs, current) && NextCurrent(bs, current, c)
    requires Sane(added) && added.failed == 0 && Unused(bs, ls, added.base, added.end - added.base)
    requires r.block == |bs| && added.base + DATA <= r.at && r.at + r.size == added.last
    ensures var bs' := Failed(bs, current) + [added];
      && Blocks(bs') && Regions(bs', live + [r]) && Larges(bs', ls) && Tired(bs', c)
  {
    hide Overlap;
    var bs' := Failed(bs, current) + [added];
    NewBlockBlocks(bs, ls, current, added);
    forall i | 0 <= i < |live|
      ensures Carved(bs', live[i]) && !Overlap(live[i].at, live[i].at + live[i].size, r.at, r.at + r.size)
    {
      RegionApart(bs, ls, live[i], added, r);
    }
    LargesApart(bs, ls, added);
  }

  lemma NewBlockBlocks(bs: seq<Block>, ls: seq<Large>, current: nat, added: Block)
    requires Blocks(bs) && Sane(added) && Unused(bs, ls, added.base, added.end - added.base)
    ensures Blocks(Failed(bs, current) + [added])
  {
    var bs' := Failed(bs, current) + [added];
    forall i, j | 0 <= i < j < |bs'| ensures !Overlap(bs'[i].base, bs'[i].end, bs'[j].base, bs'[j].end) {
      if j < |bs| {
        assert !Overlap(bs[i].base, bs[i].end, bs[j].base, bs[j].end);
      } else {
        assert !Overlap(added.base, added.base + (added.end - added.base), bs[i].base, bs[i].end);
      }
    }
  }

  lemma RegionApart(bs: seq<Block>, ls: seq<Large>, x: Region, added: Block, r: Region)
    requires Blocks(bs) && Carved(bs, x) && Sane(added) && Unused(bs, ls, added.base, added.end - added.base)
    requires added.base + DATA <= r.at && r.at + r.size == added.last
    ensures !Overlap(x.at, x.at + x.size, r.at, r.at + r.size)
  {
    var b := bs[x.block];
    assert Sane(b);
    assert !Overlap(added.base, added.base + (added.end - added.base), b.base, b.end);
  }

  lemma LargesApart(bs: seq<Block>, ls: seq<Large>, added: Block)
    requires Larges(bs, ls) && Sane(added) && Unused(bs, ls, added.base, added.end - added.base)
    ensures forall i :: 0 <= i < |ls| && ls[i].alloc != 0 ==>
      !Overlap(ls[i].alloc, ls[i].alloc + ls[i].size, added.base, added.end)
  {
    forall i | 0 <= i < |ls| && ls[i].alloc != 0
      ensures !Overlap(ls[i].alloc, ls[i].alloc + ls[i].size, added.base, added.end)
    {
      assert !Overlap(added.base, added.base + (added.end - added.base), ls[i].alloc, ls[i].alloc + ls[i].size);
    }
  }

  /** All blocks have the size of the first. */
  ghost predicate SameSize(bs: seq<Block>) {
    forall k :: 0 <= k < |bs| ==> bs[k].end == bs[k].base + (bs[0].end - bs[0].base)
  }

  /** The blocks are where they were, with at most a new one at p. */
  ghost predicate Grown(bs: seq<Block>, bs': seq<Block>, p: nat) {
    && bs != [] && (|bs'| == |bs| || |bs'| == |bs| + 1)
    && (forall k :: 0 <= k < |bs| ==> bs'[k].base == bs[k].base && bs'[k].end == bs[k].end)
    && (|bs'| > |bs| ==> p != 0 && bs'[|bs|].base == p && bs'[|bs|].end == p + (bs[0].end - bs[0].base))
  }

  lemma GrownSize(bs: seq<Block>, bs': seq<Block>, p: nat)
    requires SameSize(bs) && Grown(bs, bs', p)
    ensures SameSize(bs')
  {
  }

  lemma StillUnused(bs: seq<Block>, bs': seq<Block>, ls: seq<Large>, q: nat, size: nat, p: nat)
    requires Unused(bs, ls, q, size) && Grown(bs, bs', p) && bs[0].base <= bs[0].end
    requires p != 0 && q != 0 ==> !Overlap(q, q + size, p, p + (bs[0].end - bs[0].base))
    ensures Unused(bs', ls, q, size)
  {
    hide Overlap;
  }

  // ---------- the pool ----------

  class Pool {
    var blocks: seq<Block>        // from the pool itself along d.next
    var current: nat              // an index
    var large: seq<Large>
    const max: nat
    ghost var live: seq<Region>   // all that has been carved from blocks

    ghost predicate Valid()
      reads this
    {
      && Blocks(blocks) && Regions(blocks, live) && Larges(blocks, large) && Tired(blocks, current)
      && blocks[0].base + POOL + max <= blocks[0].end && SameSize(blocks)
    }

    /** ngx_create_pool of the memory at p; `limit` is NGX_MAX_ALLOC_FROM_POOL. */
    constructor (p: nat, size: nat, limit: nat)
      requires p > 0 && p % POOL_ALIGNMENT == 0 && size % ALIGNMENT == 0 && POOL <= size && p + size < TWO64
      ensures Valid() && live == [] && large == [] && max == (if size - POOL < limit then size - POOL else limit)
      ensures blocks == [Block(p, p + POOL, p + size, 0)] && current == 0
    {
      blocks, current, large, live := [Block(p, p + POOL, p + size, 0)], 0, [], [];
      max := if size - POOL < limit then size - POOL else limit;
    }

    /** A new block of the size of the first that memalign could return. */
    ghost predicate Memalign(p: nat)
      reads this
    {
      && blocks != [] && blocks[0].base <= blocks[0].end
      && (p != 0 ==> p % POOL_ALIGNMENT == 0 && p + (blocks[0].end - blocks[0].base) < TWO64)
      && Unused(blocks, large, p, blocks[0].end - blocks[0].base)
    }

    /** ngx_palloc_small */
    method Small(size: nat, align: bool, p: nat) returns (r: Result)
      requires Valid() && size <= max && Memalign(p)
      modifies `blocks, `current, `live
      ensures Valid() && large == old(large)
      ensures r == Null <==> p == 0 && NoRoom(old(blocks), old(current), size, align)
      ensures r == Null ==> live == old(live) && blocks == old(blocks) && current == old(current)
      ensures r != Null ==> live != [] && live[..|live| - 1] == old(live)
      ensures r != Null ==> live[|live| - 1].at == r.addr && live[|live| - 1].size == size
      ensures r != Null && align ==> r.addr % ALIGNMENT == 0
      ensures Grown(old(blocks), blocks, p)
      ensures |blocks| == |old(blocks)| ==> current == old(current)
      ensures |blocks| > |old(blocks)| ==> NoRoom(old(blocks), old(current), size, align)
      ensures r != Null && |blocks| == |old(blocks)| ==>
        var k := live[|live| - 1].block;
        old(current) <= k < |old(blocks)| && NoRoom(old(blocks)[..k], old(current), size, align)
      ensures |blocks| == |old(blocks)| ==> forall i :: 0 <= i < |blocks| ==> blocks[i].failed == old(blocks[i].failed)
    {
      hide Blocks, Regions, Larges, Tired, HasRoom, AlignPtr, SameSize;
      BlocksFacts(blocks, current);
      var k, m := current, 0;
      while k < |blocks|
        invariant current <= k <= |blocks|
        invariant forall i :: current <= i < k ==> Start(blocks[i], align) + size > blocks[i].end
        modifies {}
      {
        m := blocks[k].last;
        if align {
          m := AlignPtr(m);
        }
        BlockFacts(blocks, k);
        RoomFacts(blocks[k], m, size);
        if HasRoom(m, blocks[k].end, size) {
          break;
        }
        k := k + 1;
      }
      if k == |blocks| {
        r := NewBlock(size, p);
        return;
      }
      CarveKeeps(blocks, live, large, current, k, m, size);
      GrownSize(blocks, blocks[k := blocks[k].(last := m + size)], p);
      blocks, live := blocks[k := blocks[k].(last := m + size)], live + [Region(k, m, size)];
      return At(m);
    }

    /** ngx_palloc_block */
    method NewBlock(size: nat, p: nat) returns (r: Result)
      requires Valid() && size <= max && Memalign(p)
      modifies `blocks, `current, `live
      ensures Valid() && large == old(large)
      ensures r == Null <==> p == 0
      ensures r == Null ==> live == old(live) && blocks == old(blocks) && current == old(current)
      ensures r != Null ==> live == old(live) + [Region(|old(blocks)|, r.addr, size)] && r.addr % ALIGNMENT == 0
      ensures r != Null ==> |blocks| == |old(blocks)| + 1 && NextCurrent(old(blocks), old(current), current)
      ensures Grown(old(blocks), blocks, p)
    {
      hide Blocks, Regions, Larges, Tired, Unused, AlignPtr, NextCurrent, SameSize;
      if p == 0 {
        return Null;
      }
      BlocksFacts(blocks, current);
      BlockFacts(blocks, 0);
      var psize := blocks[0].end - blocks[0].base;
      var m := AlignPtr(p + DATA);
      DataAligned(p, m);
      var added := Block(p, m + size, p + psize, 0);
      NewSane(blocks[0], added, size, max);
      var bs, c := Retry(blocks, current);
      NewBlockKeeps(blocks, live, large, current, c, added, Region(|blocks|, m, size));
      GrownSize(blocks, bs + [added], p);
      blocks, current, live := bs + [added], c, live + [Region(|blocks|, m, size)];
      return At(m);
    }

    /** The loop of ngx_palloc_block. */
    method Retry(bs: seq<Block>, current0: nat) returns (r: seq<Block>, c: nat)
      requires Tired(bs, current0)
      ensures r == Failed(bs, current0) && NextCurrent(bs, current0, c)
    {
      hide Tired;
      TiredIs(bs, current0);
      r, c := bs, current0;
      var i := current0;
      while i < |bs| - 1
        invariant current0 <= c <= i < |bs| && |r| == |bs|
        invariant forall k :: 0 <= k < |bs| ==>
          r[k] == bs[k].(failed := bs[k].failed + if current0 <= k < i then 1 else 0)
        invariant forall k :: current0 <= k < c ==> bs[k].failed > 4
        invariant c < i ==> bs[c].failed <= 4
      {
        var failed := r[i].failed;
        r := r[i := r[i].(failed := failed + 1)];
        if failed > 4 {
          c := i + 1;
        }
        i := i + 1;
      }
    }

    /** The memory that there is does not do: no block has room for what is small, and the heap gives nothing. */
    ghost predicate Refuses(size: nat, align: bool, q: nat, p: nat)
      reads this
    {
      if size <= max then p == 0 && NoRoom(blocks, current, size, align) else RefusesLarge(q, p)
    }

    /** Neither a freed entry can be used again nor a new one made, or there is no memory for it to hold. */
    ghost predicate RefusesLarge(q: nat, p: nat)
      reads this
    {
      q == 0 || ((forall i :: 0 <= i < |large| && i < 5 ==> large[i].alloc != 0)
                 && p == 0 && NoRoom(blocks, current, ENTRY, true))
    }

    /** ngx_palloc and ngx_pnalloc; q is what malloc could return for a large allocation. */
    method Palloc(size: nat, align: bool, q: nat, p: nat) returns (r: Result)
      requires Valid() && Memalign(p) && (size > max ==> Malloc(q, size, p))
      modifies `blocks, `current, `live, `large
      ensures Valid()
      ensures r != Null && size <= max ==>
        && live != [] && live[..|live| - 1] == old(live) && large == old(large)
        && live[|live| - 1].at == r.addr && live[|live| - 1].size == size && (align ==> r.addr % ALIGNMENT == 0)
      ensures r != Null && size > max ==> r.addr == q != 0 && Large(q, size) in large
      ensures r == Null <==> old(Refuses(size, align, q, p))
      ensures |blocks| > |old(blocks)| ==>
        NoRoom(old(blocks), old(current), if size <= max then size else ENTRY, size > max || align)
      ensures r == Null ==> live == old(live) && large == old(large) && blocks == old(blocks)
      ensures forall l :: l in old(large) && l.alloc != 0 ==> l in large
      ensures old(live) <= live
    {
      if size <= max {
        r := Small(size, align, p);
      } else {
        r := PallocLarge(size, q, p);
      }
    }

    /** Memory that malloc could return, apart from what memalign could. */
    ghost predicate Malloc(q: nat, size: nat, p: nat)
      reads this
    {
      && Unused(blocks, large, q, size) && ENTRY <= max && blocks != [] && blocks[0].base <= blocks[0].end
      && (q != 0 && p != 0 ==> !Overlap(q, q + size, p, p + (blocks[0].end - blocks[0].base)))
    }

    /** ngx_palloc_large: a freed entry among the first five is used again, or a new one is carved. */
    method PallocLarge(size: nat, q: nat, p: nat) returns (r: Result)
      requires Valid() && Memalign(p) && Malloc(q, size, p)
      modifies `blocks, `current, `live, `large
      ensures Valid()
      ensures r != Null ==> r.addr == q != 0 && Large(q, size) in large
      ensures r == Null <==> old(RefusesLarge(q, p))
      ensures (exists i :: 0 <= i < |old(large)| && i < 5 && old(large)[i].alloc == 0) ==>
        blocks == old(blocks) && live == old(live) && |large| == |old(large)|
      ensures |blocks| > |old(blocks)| ==> NoRoom(old(blocks), old(current), ENTRY, true)
      ensures r == Null ==> live == old(live) && large == old(large) && blocks == old(blocks)
      ensures forall l :: l in old(large) && l.alloc != 0 ==> l in large
      ensures old(live) <= live
    {
      hide Blocks, Regions, Larges, Tired, Unused, Overlap, SameSize, Grown;
      if q == 0 {
        return Null;
      }
      var i := 0;
      while i < |large| && i < 5
        invariant i <= |large| && i <= 5 && forall k :: 0 <= k < i ==> large[k].alloc != 0
        modifies {}
      {
        if large[i].alloc == 0 {
          break;
        }
        i := i + 1;
      }
      if i < |large| && i < 5 {
        ReuseEntry(blocks, large, i, q, size);
        large := large[i := Large(q, size)];
        return At(q);
      }
      ghost var before := blocks;
      r := Small(ENTRY, true, p);
      if r == Null {
        return Null;
      }
      StillUnused(before, blocks, large, q, size, p);
      NewEntry(blocks, large, q, size);
      large := [Large(q, size)] + large;
      return At(q);
    }

    /** ngx_pfree */
    method Pfree(q: nat) returns (ok: bool)
      requires Valid() && q != 0
      modifies `large
      ensures Valid()
      ensures ok <==> exists i :: 0 <= i < |old(large)| && old(large)[i].alloc == q
      ensures ok ==> exists i: nat :: Freed(old(large), large, i, q)
      ensures !ok ==> large == old(large)
    {
      hide Blocks, Regions, Larges, Tired, Unused, Overlap;
      for i := 0 to |large|
        invariant large == old(large) && forall k :: 0 <= k < i ==> large[k].alloc != q
      {
        if large[i].alloc == q {
          FreeEntry(blocks, large, i);
          assert Freed(old(large), large[i := Large(0, large[i].size)], i, q);
          large := large[i := Large(0, large[i].size)];
          return true;
        }
      }
      return false;
    }

    /** ngx_reset_pool */
    method Reset()
      requires Valid()
      modifies `blocks, `current, `live, `large
      ensures Valid() && live == [] && large == [] && current == 0 && |blocks| == |old(blocks)|
      ensures forall k :: 0 <= k < |blocks| ==>
        blocks[k] == Block(old(blocks)[k].base, old(blocks)[k].base + POOL, old(blocks)[k].end, 0)
    {
      ghost var bs := blocks;
      for k := 0 to |blocks|
        invariant |blocks| == |bs|
        invariant forall i :: 0 <= i < |bs| ==>
          blocks[i] == if i < k then Block(bs[i].base, bs[i].base + POOL, bs[i].end, 0) else bs[i]
      {
        blocks := blocks[k := blocks[k].(last := blocks[k].base + POOL, failed := 0)];
      }
      current, large, live := 0, [], [];
    }

    /** Growing the last allocation of the first block in place, as ngx_array_push does. */
    method Grow(ghost i: nat, extra: nat)
      requires Valid() && i < |live| && live[i].block == 0 && live[i].at + live[i].size == blocks[0].last
      requires live[i].size > 0 && blocks[0].last + extra <= blocks[0].end
      modifies `blocks, `live
      ensures Valid()
      ensures live == old(live)[i := Region(0, old(live)[i].at, old(live)[i].size + extra)]
      ensures blocks == old(blocks)[0 := old(blocks)[0].(last := old(blocks)[0].last + extra)]
    {
      hide Blocks, Regions, Larges, Tired, SameSize;
      BlocksFacts(blocks, current);
      var last := blocks[0].last + extra;
      CarveKeeps(blocks, live, large, current, 0, blocks[0].last, extra);
      GrownSize(blocks, blocks[0 := blocks[0].(last := last)], 1);
      GrowKeeps(blocks, live, i, extra);
      blocks, live := blocks[0 := blocks[0].(last := last)], live[i := Region(0, live[i].at, live[i].size + extra)];
    }
  }

  lemma GrowKeeps(bs: seq<Block>, live: seq<Region>, i: nat, extra: nat)
    requires bs != [] && Blocks(bs) && i < |live| && live[i].block == 0 && live[i].at + live[i].size == bs[0].last
    requires live[i].size > 0 && Regions(bs, live)
    requires var bs' := bs[0 := bs[0].(last := bs[0].last + extra)];
      Blocks(bs') && Regions(bs', live + [Region(0, bs[0].last, extra)])
    ensures Regions(bs[0 := bs[0].(last := bs[0].last + extra)], live[i := Region(0, live[i].at, live[i].size + extra)])
  {
    hide Blocks;
    var all := live + [Region(0, bs[0].last, extra)];
    var live' := live[i := Region(0, live[i].at, live[i].size + extra)];
    forall j | 0 <= j < |live| && j != i
      ensures !Overlap(live[j].at, live[j].at + live[j].size, live'[i].at, live'[i].at + live'[i].size)
      ensures !Overlap(live'[i].at, live'[i].at + live'[i].size, live[j].at, live[j].at + live[j].size)
    {
      assert all[j] == live[j] && all[|live|] == Region(0, bs[0].last, extra);
    }
    assert forall j :: 0 <= j < |live| ==> all[j] == live[j];
  }

  const ENTRY := 16             // sizeof(ngx_pool_large_t)

  /** Entry i, which had address q, is free now. */
  ghost predicate Freed(ls: seq<Large>, ls': seq<Large>, i: nat, q: nat) {
    i < |ls| && ls[i].alloc == q && ls' == ls[i := Large(0, ls[i].size)]
  }

  lemma ReuseEntry(bs: seq<Block>, ls: seq<Large>, i: nat, q: nat, size: nat)
    requires Larges(bs, ls) && i < |ls| && q != 0 && Unused(bs, ls, q, size) && ls[i].alloc == 0
    ensures var ls' := ls[i := Large(q, size)];
      Larges(bs, ls') && Large(q, size) in ls' && forall l :: l in ls && l.alloc != 0 ==> l in ls'
  {
    hide Larges, Unused;
    ReusedLarges(bs, ls, i, q, size);
    var ls' := ls[i := Large(q, size)];
    assert ls'[i] == Large(q, size);
    forall l | l in ls && l.alloc != 0 ensures l in ls' {
      var j :| 0 <= j < |ls| && ls[j] == l;
      assert ls'[j] == l;
    }
  }

  lemma ReusedLarges(bs: seq<Block>, ls: seq<Large>, i: nat, q: nat, size: nat)
    requires Larges(bs, ls) && i < |ls| && q != 0 && Unused(bs, ls, q, size)
    ensures Larges(bs, ls[i := Large(q, size)])
  {
    hide Overlap;
    OverlapSwaps();
  }

  lemma OverlapSwaps()
    ensures forall a, b, c, d :: Overlap(a, b, c, d) == Overlap(c, d, a, b)
  {
  }

  lemma NewEntry(bs: seq<Block>, ls: seq<Large>, q: nat, size: nat)
    requires Larges(bs, ls) && q != 0 && Unused(bs, ls, q, size)
    ensures Larges(bs, [Large(q, size)] + ls)
  {
  }

  lemma FreeEntry(bs: seq<Block>, ls: seq<Large>, i: nat)
    requires Larges(bs, ls) && i < |ls|
    ensures Larges(bs, ls[i := Large(0, ls[i].size)])
  {
  }

  lemma TiredIs(bs: seq<Block>, current: nat)
    requires Tired(bs, current)
    ensures current < |bs| && forall i, j :: current <= i < j < |bs| ==> bs[i].failed >= bs[j].failed
  {
  }

  lemma BlocksFacts(bs: seq<Block>, current: nat)
    requires Blocks(bs) && Tired(bs, current)
    ensures bs != [] && current < |bs|
  {
  }

  lemma BlockFacts(bs: seq<Block>, k: nat)
    requires Blocks(bs) && k < |bs|
    ensures Sane(bs[k])
  {
  }

  lemma RoomFacts(b: Block, m: nat, size: nat)
    requires Sane(b) && (m == b.last || m == AlignPtr(b.last))
    ensures HasRoom(m, b.end, size) <==> m + size <= b.end
    ensures b.last <= m
  {
    AlignedEnd(b.last, b.end);
    RoomOf(m, b.end);
  }

  lemma DataAligned(p: nat, m: nat)
    requires p % POOL_ALIGNMENT == 0 && m == AlignPtr(p + DATA)
    ensures m == p + DATA
  {
    var k := 2 * (p / 16) + DATA / 8;
    assert p + DATA == 8 * k;
    Aligned(k);
  }

  lemma Aligned(k: nat)
    ensures AlignPtr(8 * k) == 8 * k
  {
  }

  lemma NewSane(first: Block, b: Block, size: nat, max: nat)
    requires Sane(first) && first.base + POOL + max <= first.end && size <= max
    requires b.base > 0 && b.base % POOL_ALIGNMENT == 0 && b.end == b.base + (first.end - first.base) < TWO64
    requires b.last == b.base + DATA + size
    ensures Sane(b)
  {
    EightDivides(first.end, first.base, b.base);
    assert b.base + DATA + size <= b.end;
  }

  lemma EightDivides(x: nat, y: nat, z: nat)
    requires x % 8 == 0 && y % 16 == 0 && z % 16 == 0
    ensures (z + (x - y)) % 8 == 0
  {
    assert z + (x - y) == 8 * (2 * (z / 16) + x / 8 - 2 * (y / 16));
  }
}
