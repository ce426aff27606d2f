/**
  The static hash of src/core/ngx_hash.c: ngx_hash_init packs all elements into one aligned block
  of bytes, bucket after bucket, and ngx_hash_find walks a bucket by pointer arithmetic until it
  meets a NULL value.  The block is modelled byte by byte, pointers in it as 8 little-endian bytes.
 */
module HashTable {

  import opened Octets
  import opened Wrappers

  const PTR_SIZE := 8            // sizeof(void *)
  const NAME_OFFSET := 10       // offsetof(ngx_hash_elt_t, name): the value and a u_short length
  const MAX_LOAD := 65535       // a u_short

  /** ngx_hash_key_t; a caller drops a name by setting key.data to NULL. */
  datatype Key = Key(name: Bytes, dropped: bool, hash: nat, value: nat)

  // ---------- alignment ----------

  /** What elements and buckets are aligned to: a word, or a cache line of a supported processor. */
  predicate Granule(a: nat) {
    a == 8 || a == 32 || a == 64 || a == 128
  }

  /** ngx_align(d, a) */
  function Align(d: nat, a: nat): (r: nat)
    requires Granule(a)
    ensures d <= r < d + a && r % a == 0 && r % 8 == 0
  {
    d + (a - 1) - (d + (a - 1)) % a
  }

  /** NGX_HASH_ELT_SIZE: the distance between elements when they are written. */
  function EltSize(name: Bytes): nat {
    PTR_SIZE + Align(|name| + 2, PTR_SIZE)
  }

  /** An element takes a pointer, two bytes and the name, rounded up to the next multiple of a pointer. */
  lemma EltSizeIs(name: Bytes)
    ensures EltSize(name) % 8 == 0 && 8 + 2 + |name| <= EltSize(name) < 8 + 2 + |name| + 8
  {
  }

  /** The distance by which ngx_hash_find steps from an element at an aligned address. */
  lemma ReadStrideIsWriteStride(at: nat, name: Bytes)
    requires at % PTR_SIZE == 0
    ensures Align(at + NAME_OFFSET + |name|, PTR_SIZE) == at + EltSize(name)
  {
    AlignShift(|name| + 2, at / PTR_SIZE + 1);
  }

  lemma AlignShift(d: nat, k: nat)
    ensures Align(d + 8 * k, PTR_SIZE) == Align(d, PTR_SIZE) + 8 * k
  {
    var q, r := (d + 7) / 8, (d + 7) % 8;
    assert d + 8 * k + 7 == 8 * (q + k) + r;
    assert (d + 8 * k + 7) % 8 == r;
  }

  // ---------- names ----------

  /** The value of the first key with this lower-cased name; NULL if there is none. */
  function Lookup(keys: seq<Key>, name: Bytes): nat {
    LookupFrom(keys, 0, name)
  }

  function LookupFrom(keys: seq<Key>, j: nat, name: Bytes): nat
    requires j <= |keys|
    decreases |keys| - j
  {
    if j == |keys| then 0
    else if !keys[j].dropped && LowerAll(keys[j].name) == name then keys[j].value
    else LookupFrom(keys, j + 1, name)
  }

  // ---------- pointers in memory ----------

  /** The element at byte offset p: a value, a u_short length, and the name. */
  function ValueAt(m: Bytes, p: nat): nat
    requires p + PTR_SIZE <= |m|
  {
    FromLe(m[p..p + PTR_SIZE])
  }

  function LenAt(m: Bytes, p: nat): nat
    requires p + NAME_OFFSET <= |m|
  {
    FromLe(m[p + PTR_SIZE..p + NAME_OFFSET])
  }

  ghost predicate EltAt(m: Bytes, p: nat, name: Bytes, value: nat) {
    && p + NAME_OFFSET + |name| <= |m|
    && ValueAt(m, p) == value && LenAt(m, p) == |name|
    && m[p + NAME_OFFSET..p + NAME_OFFSET + |name|] == name
  }

  // ---------- loads and addresses ----------

  function Bucket(k: Key, size: nat): (b: nat)
    requires size > 0
    ensures b < size
  {
    k.hash % size
  }

  /** The bytes that the first n keys put into bucket b of `size`. */
  function Load(keys: seq<Key>, n: nat, size: nat, b: nat): nat
    requires n <= |keys| && size > 0
  {
    if n == 0 then 0
    else Load(keys, n - 1, size, b) + Share(keys[n - 1], size, b)
  }

  function Share(k: Key, size: nat, b: nat): nat
    requires size > 0
  {
    if !k.dropped && Bucket(k, size) == b then EltSize(k.name) else 0
  }

  lemma {:induction false} LoadGrows(keys: seq<Key>, i: nat, n: nat, size: nat, b: nat)
    requires i <= n <= |keys| && size > 0
    ensures Load(keys, i, size, b) <= Load(keys, n, size, b)
  {
    if i < n {
      LoadGrows(keys, i, n - 1, size, b);
    }
  }

  lemma {:induction false} LoadAligned(keys: seq<Key>, n: nat, size: nat, b: nat)
    requires n <= |keys| && size > 0
    ensures Load(keys, n, size, b) % PTR_SIZE == 0
  {
    hide Bucket, Align;
    if n > 0 {
      LoadAligned(keys, n - 1, size, b);
      SumAligned(Load(keys, n - 1, size, b), Share(keys[n - 1], size, b));
    }
  }

  lemma SumAligned(x: nat, y: nat)
    requires x % PTR_SIZE == 0 && y % PTR_SIZE == 0
    ensures (x + y) % PTR_SIZE == 0
  {
  }

  /** The room bucket b gets: its elements and a NULL pointer, in whole cache lines; nothing if it is empty. */
  function Room(keys: seq<Key>, size: nat, line: nat, b: nat): nat
    requires size > 0 && Granule(line)
  {
    var load := Load(keys, |keys|, size, b);
    if load == 0 then 0 else Align(PTR_SIZE + load, line)
  }

  /** Where bucket b starts, counted from the first bucket. */
  function Start(keys: seq<Key>, size: nat, line: nat, b: nat): nat
    requires size > 0 && Granule(line)
  {
    if b == 0 then 0 else Start(keys, size, line, b - 1) + Room(keys, size, line, b - 1)
  }

  lemma {:induction false} StartGrows(keys: seq<Key>, size: nat, line: nat, b: nat, c: nat)
    requires size > 0 && Granule(line) && b < c
    ensures Start(keys, size, line, b) + Room(keys, size, line, b) <= Start(keys, size, line, c)
  {
    if b + 1 < c {
      StartGrows(keys, size, line, b, c - 1);
    }
  }

  lemma {:induction false} StartAligned(keys: seq<Key>, size: nat, line: nat, b: nat)
    requires size > 0 && Granule(line)
    ensures Start(keys, size, line, b) % PTR_SIZE == 0
  {
    hide Load, Align;
    if b > 0 {
      StartAligned(keys, size, line, b - 1);
      SumAligned(Start(keys, size, line, b - 1), Room(keys, size, line, b - 1));
    }
  }

  /** Where key j is stored. */
  function Place(keys: seq<Key>, j: nat, size: nat, line: nat): nat
    requires j < |keys| && size > 0 && Granule(line)
  {
    var b := Bucket(keys[j], size);
    Start(keys, size, line, b) + Load(keys, j, size, b)
  }

  /** Where bucket b's NULL pointer is stored. */
  function Sentinel(keys: seq<Key>, size: nat, line: nat, b: nat): nat
    requires size > 0 && Granule(line)
  {
    Start(keys, size, line, b) + Load(keys, |keys|, size, b)
  }

  /** An element lies within its bucket, before the bucket's NULL pointer, which has room too. */
  lemma PlaceFits(keys: seq<Key>, j: nat, size: nat, line: nat)
    requires j < |keys| && size > 0 && Granule(line) && !keys[j].dropped
    ensures var b := Bucket(keys[j], size);
      && Start(keys, size, line, b) <= Place(keys, j, size, line)
      && Place(keys, j, size, line) + EltSize(keys[j].name) <= Sentinel(keys, size, line, b)
      && Sentinel(keys, size, line, b) + PTR_SIZE <= Start(keys, size, line, b) + Room(keys, size, line, b)
      && Start(keys, size, line, b) + Room(keys, size, line, b) <= Start(keys, size, line, size)
  {
    var b := Bucket(keys[j], size);
    LoadGrows(keys, j + 1, |keys|, size, b);
    StartGrows(keys, size, line, b, size);
  }

  /** Elements do not overlap. */
  lemma PlacesDisjoint(keys: seq<Key>, i: nat, j: nat, size: nat, line: nat)
    requires i < j < |keys| && size > 0 && Granule(line) && !keys[i].dropped && !keys[j].dropped
    ensures || Place(keys, i, size, line) + EltSize(keys[i].name) <= Place(keys, j, size, line)
            || Place(keys, j, size, line) + EltSize(keys[j].name) <= Place(keys, i, size, line)
  {
    var b, c := Bucket(keys[i], size), Bucket(keys[j], size);
    if b == c {
      LoadGrows(keys, i + 1, j, size, b);
    } else {
      PlaceFits(keys, i, size, line);
      PlaceFits(keys, j, size, line);
      if b < c {
        StartGrows(keys, size, line, b, c);
      } else {
        StartGrows(keys, size, line, c, b);
      }
    }
  }

  /** Nor does an element overlap a bucket's NULL pointer. */
  lemma SentinelDisjoint(keys: seq<Key>, j: nat, c: nat, size: nat, line: nat)
    requires j < |keys| && c < size && Granule(line) && !keys[j].dropped && Load(keys, |keys|, size, c) > 0
    ensures || Place(keys, j, size, line) + EltSize(keys[j].name) <= Sentinel(keys, size, line, c)
            || Sentinel(keys, size, line, c) + PTR_SIZE <= Place(keys, j, size, line)
  {
    var b := Bucket(keys[j], size);
    PlaceFits(keys, j, size, line);
    if b < c {
      StartGrows(keys, size, line, b, c);
    } else if c < b {
      StartGrows(keys, size, line, c, b);
    }
  }

  lemma SentinelsDisjoint(keys: seq<Key>, b: nat, c: nat, size: nat, line: nat)
    requires b < c < size && Granule(line) && Load(keys, |keys|, size, b) > 0
    ensures Sentinel(keys, size, line, b) + PTR_SIZE <= Sentinel(keys, size, line, c)
  {
    StartGrows(keys, size, line, b, c);
  }

  // ---------- the packed block ----------

  /** The first n keys are stored where they belong, in memory that starts `off` bytes before the buckets. */
  ghost predicate Stored(m: Bytes, off: nat, keys: seq<Key>, n: nat, size: nat, line: nat)
    requires n <= |keys| && size > 0 && Granule(line)
  {
    forall j :: 0 <= j < n && !keys[j].dropped ==>
      EltAt(m, off + Place(keys, j, size, line), LowerAll(keys[j].name), keys[j].value)
  }

  /** The first n buckets end with NULL. */
  ghost predicate Terminated(m: Bytes, off: nat, keys: seq<Key>, n: nat, size: nat, line: nat)
    requires size > 0 && Granule(line)
  {
    forall b :: 0 <= b < n && Load(keys, |keys|, size, b) > 0 ==>
      off + Sentinel(keys, size, line, b) + PTR_SIZE <= |m| && ValueAt(m, off + Sentinel(keys, size, line, b)) == 0
  }

  lemma {:induction false} LookupSkips(keys: seq<Key>, i: nat, j: nat, name: Bytes)
    requires i <= j <= |keys|
    requires forall k :: i <= k < j ==> keys[k].dropped || LowerAll(keys[k].name) != name
    ensures LookupFrom(keys, i, name) == LookupFrom(keys, j, name)
    decreases j - i
  {
    if i < j {
      LookupSkips(keys, i + 1, j, name);
    }
  }

  /** With distinct names the order of the keys is immaterial: every stored name has its own value, others have none. */
  lemma LookupIsTheMap(keys: seq<Key>, name: Bytes, j: nat)
    requires forall i, k :: 0 <= i < k < |keys| && !keys[i].dropped && !keys[k].dropped ==>
      LowerAll(keys[i].name) != LowerAll(keys[k].name)
    requires j <= |keys|
    requires if j < |keys| then !keys[j].dropped && LowerAll(keys[j].name) == name
             else forall k :: 0 <= k < |keys| ==> keys[k].dropped || LowerAll(keys[k].name) != name
    ensures Lookup(keys, name) == if j < |keys| then keys[j].value else 0
  {
    LookupSkips(keys, 0, j, name);
  }

  /** The next key of bucket b at or after index j; |keys| if there is none. */
  function NextIn(keys: seq<Key>, j: nat, size: nat, b: nat): (k: nat)
    requires j <= |keys| && size > 0
    ensures j <= k <= |keys|
    decreases |keys| - j
  {
    if j == |keys| || (!keys[j].dropped && Bucket(keys[j], size) == b) then j
    else NextIn(keys, j + 1, size, b)
  }

  lemma {:induction false} NextInIs(keys: seq<Key>, j: nat, size: nat, b: nat)
    requires j <= |keys| && size > 0
    ensures var k := NextIn(keys, j, size, b);
      && Load(keys, k, size, b) == Load(keys, j, size, b)
      && (forall i :: j <= i < k ==> keys[i].dropped || Bucket(keys[i], size) != b)
      && (k < |keys| ==> !keys[k].dropped && Bucket(keys[k], size) == b)
    decreases |keys| - j
  {
    hide Bucket, EltSize;
    if j < |keys| && (keys[j].dropped || Bucket(keys[j], size) != b) {
      NextInIs(keys, j + 1, size, b);
    }
  }

  lemma ElementAt(m: Bytes, off: nat, keys: seq<Key>, size: nat, line: nat, j: nat)
    requires size > 0 && Granule(line) && j < |keys| && !keys[j].dropped && Stored(m, off, keys, |keys|, size, line)
    ensures var p, b := off + Place(keys, j, size, line), Bucket(keys[j], size);
      && p == off + Start(keys, size, line, b) + Load(keys, j, size, b)
      && p + NAME_OFFSET + |keys[j].name| <= |m|
      && ValueAt(m, p) == keys[j].value && LenAt(m, p) == |keys[j].name|
      && m[p + NAME_OFFSET..p + NAME_OFFSET + |keys[j].name|] == LowerAll(keys[j].name)
  {
    assert EltAt(m, off + Place(keys, j, size, line), LowerAll(keys[j].name), keys[j].value);
  }

  lemma SentinelAt(m: Bytes, off: nat, keys: seq<Key>, size: nat, line: nat, b: nat)
    requires b < size && Granule(line) && Load(keys, |keys|, size, b) > 0 && Terminated(m, off, keys, size, size, line)
    ensures var p := off + Start(keys, size, line, b) + Load(keys, |keys|, size, b);
            p + PTR_SIZE <= |m| && ValueAt(m, p) == 0
  {
    hide ValueAt, Load, Start;
    assert off + Sentinel(keys, size, line, b) == off + Start(keys, size, line, b) + Load(keys, |keys|, size, b);
  }

  lemma StepAligned(x: nat, y: nat, z: nat, name: Bytes)
    requires x % PTR_SIZE == 0 && y % PTR_SIZE == 0 && z % PTR_SIZE == 0
    ensures Align(x + y + z + NAME_OFFSET + |name|, PTR_SIZE) == x + y + z + EltSize(name)
  {
    SumAligned(x, y);
    SumAligned(x + y, z);
    ReadStrideIsWriteStride(x + y + z, name);
  }

  lemma LoadNext(keys: seq<Key>, j: nat, size: nat, b: nat)
    requires j < |keys| && size > 0 && !keys[j].dropped && Bucket(keys[j], size) == b
    ensures Load(keys, j + 1, size, b) == Load(keys, j, size, b) + EltSize(keys[j].name)
  {
  }

  /** A key of this name has this hash. */
  ghost predicate HashOf(keys: seq<Key>, name: Bytes, hash: nat) {
    forall k :: k in keys && !k.dropped && LowerAll(k.name) == name ==> k.hash == hash
  }

  ghost predicate NoNulls(keys: seq<Key>) {
    forall k :: k in keys && !k.dropped ==> k.value != 0
  }

  lemma NotNull(keys: seq<Key>, j: nat)
    requires j < |keys| && !keys[j].dropped && NoNulls(keys)
    ensures keys[j].value != 0
  {
    assert keys[j] in keys;
  }

  class Hash {
    var size: nat
    var buckets: seq<nat>       // the addresses of the buckets' first elements, 0 for NULL
    var block: nat              // the address of the block of elements
    var mem: array<Byte>        // the block's bytes

    /** The memory holds these keys; `line` is the cache line it was packed for. */
    ghost predicate Holds(keys: seq<Key>, line: nat)
      reads this, mem
    {
      && size > 0 && |buckets| == size && Granule(line) && block > 0
      && (var elts := Align(block, line);
          && elts - block + Start(keys, size, line, size) <= mem.Length
          && (forall b :: 0 <= b < size ==>
                buckets[b] == if Load(keys, |keys|, size, b) == 0 then 0 else elts + Start(keys, size, line, b))
          && Stored(mem[..], elts - block, keys, |keys|, size, line)
          && Terminated(mem[..], elts - block, keys, size, size, line))
    }

    constructor (size: nat, buckets: seq<nat>, block: nat, mem: array<Byte>)
      ensures this.size == size && this.buckets == buckets && this.block == block && this.mem == mem
    {
      this.size, this.buckets, this.block, this.mem := size, buckets, block, mem;
    }

    /** Reads the value at an address in the block. */
    function Value(at: nat): nat
      reads this, mem
      requires block <= at && at - block + PTR_SIZE <= mem.Length
    {
      ValueAt(mem[..], at - block)
    }

    function Len(at: nat): nat
      reads this, mem
      requires block <= at && at - block + NAME_OFFSET <= mem.Length
    {
      LenAt(mem[..], at - block)
    }

    /**
      ngx_hash_find: for a name and its hash, the value stored for the name, or NULL.  The hash of
      a stored key must be the one its name has.
     */
    method Find(key: nat, name: Bytes, ghost keys: seq<Key>, ghost line: nat) returns (value: nat)
      requires Holds(keys, line) && HashOf(keys, name, key) && NoNulls(keys)
      ensures value == Lookup(keys, name)
    {
      hide Holds, HashOf, NoNulls, Walk, Align, LookupFrom;
      ghost var b, j := WalkStart(keys, line, name, key);
      var elt: nat := buckets[key % size];
      if elt == 0 {
        return 0;
      }
      while true
        invariant j <= |keys| && Walk(keys, line, name, b, elt, j)
        decreases |keys| - j
        modifies {}
      {
        WalkRead(keys, line, name, b, elt, j);
        if Value(elt) == 0 {
          return 0;
        }
        var len := Len(elt);
        if len == |name| {
          var same := SameName(elt - block + NAME_OFFSET, name);
          if same {
            return Value(elt);
          }
        }
        j := WalkNext(keys, line, name, key, b, elt, j);
        elt := Align(elt + NAME_OFFSET + len, PTR_SIZE);
      }
    }

    /** A walk through bucket b is at key j, or at the end; the keys before have other names. */
    ghost predicate Walk(keys: seq<Key>, line: nat, name: Bytes, b: nat, elt: nat, j: nat)
      reads this, mem
    {
      && Holds(keys, line) && b < size && Load(keys, |keys|, size, b) > 0 && j <= |keys|
      && (j == |keys| || (!keys[j].dropped && Bucket(keys[j], size) == b))
      && elt == Align(block, line) + Start(keys, size, line, b) + Load(keys, j, size, b)
      && Lookup(keys, name) == LookupFrom(keys, j, name)
    }

    lemma WalkStart(keys: seq<Key>, line: nat, name: Bytes, key: nat) returns (b: nat, j: nat)
      requires Holds(keys, line) && HashOf(keys, name, key)
      ensures size > 0 && |buckets| == size && b == key % size && j <= |keys|
      ensures if buckets[b] == 0 then Lookup(keys, name) == 0 else Walk(keys, line, name, b, buckets[b], j)
    {
      hide Stored, Terminated, LowerAll, NextIn, Bucket, HashOf, LookupFrom, Load, Start;
      b := key % size;
      SkipOthers(keys, 0, b, name, key);
      j := NextIn(keys, 0, size, b);
      NoneLeft(keys, name);
    }

    lemma NoneLeft(keys: seq<Key>, name: Bytes)
      ensures LookupFrom(keys, |keys|, name) == 0
    {
    }

    /** What is read at the walk's place: the end of the bucket, or key j, which decides a lookup if it has the name. */
    lemma WalkRead(keys: seq<Key>, line: nat, name: Bytes, b: nat, elt: nat, j: nat)
      requires Walk(keys, line, name, b, elt, j) && NoNulls(keys)
      ensures block <= elt && elt - block + PTR_SIZE <= mem.Length
      ensures Value(elt) == 0 <==> j == |keys|
      ensures Value(elt) == 0 ==> Lookup(keys, name) == 0
      ensures j < |keys| ==>
        && elt - block + NAME_OFFSET + |keys[j].name| <= mem.Length
        && Len(elt) == |keys[j].name|
        && (|keys[j].name| == |name| &&
              mem[..][elt - block + NAME_OFFSET..elt - block + NAME_OFFSET + |name|] == name ==>
              Lookup(keys, name) == Value(elt))
        && (Lookup(keys, name) != LookupFrom(keys, j + 1, name) ==>
              (|keys[j].name| == |name| &&
                mem[..][elt - block + NAME_OFFSET..elt - block + NAME_OFFSET + |name|] == name))
    {
      hide Stored, Terminated, ValueAt, LenAt, Load, Start, EltSize, LowerAll, Align, NoNulls;
      if j == |keys| {
        AtEnd(keys, line, b);
      } else {
        AtElt(keys, line, b, j);
        NotNull(keys, j);
      }
    }

    lemma WalkNext(keys: seq<Key>, line: nat, name: Bytes, key: nat, b: nat, elt: nat, j: nat) returns (j': nat)
      requires Walk(keys, line, name, b, elt, j) && j < |keys| && b == key % size && HashOf(keys, name, key)
      requires Lookup(keys, name) == LookupFrom(keys, j + 1, name)
      ensures j < j' <= |keys| && Walk(keys, line, name, b, Align(elt + NAME_OFFSET + |keys[j].name|, PTR_SIZE), j')
    {
      hide Holds, ValueAt, LenAt, Load, Start, EltSize, LowerAll, Align, HashOf, NextIn, LookupFrom;
      HoldsSize(keys, line);
      AtElt(keys, line, b, j);
      SkipOthers(keys, j + 1, b, name, key);
      j' := NextIn(keys, j + 1, size, b);
    }

    lemma HoldsSize(keys: seq<Key>, line: nat)
      requires Holds(keys, line)
      ensures size > 0 && Granule(line) && block <= Align(block, line)
    {
    }

    /** The comparison loop of ngx_hash_find. */
    method SameName(p: nat, name: Bytes) returns (same: bool)
      requires p + |name| <= mem.Length
      ensures same <==> mem[..][p..p + |name|] == name
    {
      for i := 0 to |name|
        invariant forall k :: 0 <= k < i ==> mem[p + k] == name[k]
      {
        if name[i] != mem[p + i] {
          assert mem[..][p..p + |name|][i] != name[i];
          return false;
        }
      }
      return true;
    }

    /** Keys of other buckets have other names. */
    lemma SkipOthers(keys: seq<Key>, j: nat, b: nat, name: Bytes, key: nat)
      requires size > 0 && b == key % size && j <= |keys|
      requires HashOf(keys, name, key)
      ensures var n := NextIn(keys, j, size, b);
        && LookupFrom(keys, j, name) == LookupFrom(keys, n, name)
        && Load(keys, n, size, b) == Load(keys, j, size, b)
        && (n < |keys| ==> !keys[n].dropped && Bucket(keys[n], size) == b)
        && (Load(keys, |keys|, size, b) == 0 ==> n == |keys|)
      ensures Load(keys, 0, size, b) == 0
    {
      hide EltSize, LowerAll;
      NextInIs(keys, j, size, b);
      var n := NextIn(keys, j, size, b);
      forall k | j <= k < n ensures keys[k].dropped || LowerAll(keys[k].name) != name {
        assert keys[k] in keys;
      }
      LookupSkips(keys, j, n, name);
      if n < |keys| {
        LoadGrows(keys, n + 1, |keys|, size, b);
        EltRoom(keys[n].name);
      }
    }

    /** What a walk through bucket b finds when it has passed the keys before j. */
    lemma AtElt(keys: seq<Key>, line: nat, b: nat, j: nat)
      requires Holds(keys, line) && b < size && j < |keys|
      requires !keys[j].dropped && Bucket(keys[j], size) == b
      ensures var p := Align(block, line) - block + Start(keys, size, line, b) + Load(keys, j, size, b);
        && p + NAME_OFFSET + |keys[j].name| <= mem.Length
        && ValueAt(mem[..], p) == keys[j].value && LenAt(mem[..], p) == |keys[j].name|
        && mem[..][p + NAME_OFFSET..p + NAME_OFFSET + |keys[j].name|] == LowerAll(keys[j].name)
        && Align(block + p + NAME_OFFSET + |keys[j].name|, PTR_SIZE) == block + p + EltSize(keys[j].name)
        && Load(keys, j + 1, size, b) == Load(keys, j, size, b) + EltSize(keys[j].name)
    {
      hide Stored, Terminated, Align, ValueAt, LenAt, Load, Start, Bucket, EltSize, LowerAll;
      var off := Align(block, line) - block;
      ElementAt(mem[..], off, keys, size, line, j);
      StartAligned(keys, size, line, b);
      LoadAligned(keys, j, size, b);
      StepAligned(block + off, Start(keys, size, line, b), Load(keys, j, size, b), keys[j].name);
      LoadNext(keys, j, size, b);
    }

    lemma AtEnd(keys: seq<Key>, line: nat, b: nat)
      requires Holds(keys, line) && b < size && Load(keys, |keys|, size, b) > 0
      ensures var p := Align(block, line) - block + Start(keys, size, line, b) + Load(keys, |keys|, size, b);
              p + PTR_SIZE <= mem.Length && ValueAt(mem[..], p) == 0
    {
      hide Stored, Align, ValueAt, Load, Start;
      SentinelAt(mem[..], Align(block, line) - block, keys, size, line, b);
    }
  }

  // ---------- building ----------

  /** With this many buckets no bucket holds more than the configured size. */
  ghost predicate Fits(keys: seq<Key>, size: nat, room: nat) {
    size > 0 && forall b :: 0 <= b < size ==> Load(keys, |keys|, size, b) <= room
  }

  /** Unsigned division. */
  function Div(a: nat, b: nat): nat
    requires b > 0
  {
    a / b
  }

  /** Where the search for a size starts. */
  function FirstSize(n: nat, maxSize: nat, room: nat): (s: nat)
    requires room >= 2 * PTR_SIZE
    ensures s > 0
  {
    var s0 := Div(n, room / (2 * PTR_SIZE));
    var s1 := if s0 == 0 then 1 else s0;
    if maxSize > 10000 && n > 0 && Div(maxSize, n) < 100 then maxSize - 1000 else s1
  }

  /** How many of the first n keys are in buckets below m. */
  function CountBelow(keys: seq<Key>, n: nat, size: nat, m: nat): (c: nat)
    requires n <= |keys| && size > 0
    ensures c <= n
  {
    if n == 0 then 0 else CountBelow(keys, n - 1, size, m) + if Bucket(keys[n - 1], size) < m then 1 else 0
  }

  lemma {:induction false} AllBelow(keys: seq<Key>, n: nat, size: nat)
    requires n <= |keys| && size > 0
    ensures CountBelow(keys, n, size, size) == n && CountBelow(keys, n, size, 0) == 0
  {
    hide Bucket;
    if n > 0 {
      AllBelow(keys, n - 1, size);
    }
  }

  /** Every element takes at least sixteen bytes of its bucket. */
  lemma {:induction false} LoadByCount(keys: seq<Key>, n: nat, size: nat, b: nat)
    requires n <= |keys| && b < size && forall k :: k in keys ==> !k.dropped
    ensures Load(keys, n, size, b) >= 16 * (CountBelow(keys, n, size, b + 1) - CountBelow(keys, n, size, b))
  {
    hide Bucket, EltSize;
    if n > 0 {
      LoadByCount(keys, n - 1, size, b);
      EltSizeIs(keys[n - 1].name);
      assert keys[n - 1] in keys;
    }
  }

  lemma {:induction false} FewBelow(keys: seq<Key>, size: nat, room: nat, m: nat)
    requires m <= size && Fits(keys, size, room) && forall k :: k in keys ==> !k.dropped
    ensures CountBelow(keys, |keys|, size, m) <= m * (room / 16)
  {
    hide CountBelow, Load;
    if m == 0 {
      AllBelow(keys, |keys|, size);
    } else {
      FewBelow(keys, size, room, m - 1);
      LoadByCount(keys, |keys|, size, m - 1);
      assert m * (room / 16) == (m - 1) * (room / 16) + room / 16;
    }
  }

  /** So no size below the start would do, but for the start that is set near a large maximum. */
  lemma StartIsNoLoss(keys: seq<Key>, maxSize: nat, room: nat, s: nat)
    requires room >= 2 * PTR_SIZE && 0 < s < FirstSize(|keys|, maxSize, room) && forall k :: k in keys ==> !k.dropped
    ensures Fits(keys, s, room) ==>
      maxSize > 10000 && |keys| > 0 && maxSize / |keys| < 100 && FirstSize(|keys|, maxSize, room) == maxSize - 1000
  {
    hide Fits;
    assert (s + 1) * (room / 16) == s * (room / 16) + room / 16;
    if Fits(keys, s, room) {
      FewBelow(keys, s, room, s);
      AllBelow(keys, |keys|, s);
      var q := room / 16;
      if s + 1 <= |keys| / q {
        Quotient(|keys|, q);
        Product(s + 1, |keys| / q, q);
      }
    }
  }

  lemma Quotient(n: nat, q: nat)
    requires q > 0
    ensures n / q * q <= n
  {
  }

  lemma Product(a: nat, b: nat, q: nat)
    requires a <= b
    ensures a * q <= b * q
  {
  }

  /** The size that is settled for is the least of all that fit. */
  lemma ChosenIsLeast(keys: seq<Key>, maxSize: nat, room: nat, size: nat, s: nat)
    requires room >= 2 * PTR_SIZE && Chosen(keys, maxSize, room, size) && forall k :: k in keys ==> !k.dropped
    requires !(maxSize > 10000 && |keys| > 0 && maxSize / |keys| < 100)
    requires 0 < s <= maxSize && Fits(keys, s, room)
    ensures size <= s && Fits(keys, size, room)
  {
    hide Fits;
    if s < FirstSize(|keys|, maxSize, room) {
      StartIsNoLoss(keys, maxSize, room, s);
    }
  }

  /** The u_short sums that ngx_hash_init keeps per bucket. */
  ghost predicate Sums(test: seq<nat>, keys: seq<Key>, n: nat, size: nat, base: nat)
    requires n <= |keys| && size > 0
  {
    |test| >= size && forall b :: 0 <= b < size ==> test[b] == base + Load(keys, n, size, b)
  }

  /** One round of the search: do the keys fit into `size` buckets of at most `room` bytes? */
  method TrySize(keys: seq<Key>, size: nat, room: nat, test: array<nat>) returns (fits: bool)
    requires 0 < size <= test.Length
    requires forall k :: k in keys ==> EltSize(k.name) + room <= MAX_LOAD
    modifies test
    ensures fits <==> Fits(keys, size, room)
  {
    hide EltSize, Bucket;
    for i := 0 to size
      invariant forall b :: 0 <= b < i ==> test[b] == 0
    {
      test[i] := 0;
    }
    for n := 0 to |keys|
      invariant Sums(test[..], keys, n, size, 0)
      invariant forall b :: 0 <= b < size ==> Load(keys, n, size, b) <= room
    {
      if keys[n].dropped {
        continue;
      }
      var key := Bucket(keys[n], size);
      assert keys[n] in keys;
      test[key] := (test[key] + EltSize(keys[n].name)) % 0x1_0000;
      if test[key] > room {
        LoadGrows(keys, n + 1, |keys|, size, key);
        return false;
      }
    }
    return true;
  }

  /** The size ngx_hash_init settles for. */
  ghost predicate Chosen(keys: seq<Key>, maxSize: nat, room: nat, size: nat)
    requires room >= 2 * PTR_SIZE
  {
    var start := FirstSize(|keys|, maxSize, room);
    if exists s :: start <= s <= maxSize && Fits(keys, s, room) then
      start <= size <= maxSize && Fits(keys, size, room) && forall s :: start <= s < size ==> !Fits(keys, s, room)
    else size == maxSize
  }

  /** The search: the least size from `start` on whose buckets are small enough, or else maxSize. */
  method ChooseSize(keys: seq<Key>, maxSize: nat, room: nat, test: array<nat>) returns (size: nat)
    requires maxSize > 0 && test.Length == maxSize && 2 * PTR_SIZE <= room
    requires forall k :: k in keys ==> EltSize(k.name) + room <= MAX_LOAD
    modifies test
    ensures Chosen(keys, maxSize, room, size)
  {
    hide Fits, Div;
    var start := Div(|keys|, room / (2 * PTR_SIZE));
    start := if start == 0 then 1 else start;
    if maxSize > 10000 && |keys| > 0 && Div(maxSize, |keys|) < 100 {
      start := maxSize - 1000;
    }
    size := start;
    while size <= maxSize
      invariant start <= size && forall s :: start <= s < size ==> !Fits(keys, s, room)
      decreases maxSize + 1 - size
    {
      var fits := TrySize(keys, size, room, test);
      if fits {
        return;
      }
      size := size + 1;
    }
    size := maxSize;
  }

  /** No bucket's bytes, rounded up to cache lines, overflow a u_short. */
  ghost predicate NoOverflow(keys: seq<Key>, size: nat, line: nat)
    requires size > 0 && Granule(line)
  {
    forall b :: 0 <= b < size ==> Align(PTR_SIZE + Load(keys, |keys|, size, b), line) <= MAX_LOAD
  }

  /** The sums for the size that was chosen, each with the bucket's NULL pointer. */
  method Measure(keys: seq<Key>, size: nat, line: nat, test: array<nat>)
    requires 0 < size <= test.Length && Granule(line) && NoOverflow(keys, size, line)
    modifies test
    ensures Sums(test[..], keys, |keys|, size, PTR_SIZE)
  {
    hide EltSize, Bucket, Align;
    for i := 0 to size
      invariant forall b :: 0 <= b < i ==> test[b] == PTR_SIZE
    {
      test[i] := PTR_SIZE;
    }
    for n := 0 to |keys|
      invariant Sums(test[..], keys, n, size, PTR_SIZE)
    {
      if keys[n].dropped {
        continue;
      }
      var key := Bucket(keys[n], size);
      LoadGrows(keys, n + 1, |keys|, size, key);
      test[key] := (test[key] + EltSize(keys[n].name)) % 0x1_0000;
    }
  }

  /** The sums rounded up to cache lines, and their total. */
  method RoundUp(keys: seq<Key>, size: nat, line: nat, test: array<nat>) returns (len: nat)
    requires 0 < size <= test.Length && Granule(line) && NoOverflow(keys, size, line)
    requires Sums(test[..], keys, |keys|, size, PTR_SIZE)
    modifies test
    ensures len == Start(keys, size, line, size)
    ensures forall b :: 0 <= b < size ==>
      test[b] == if Load(keys, |keys|, size, b) == 0 then PTR_SIZE else Room(keys, size, line, b)
  {
    hide Load, Align;
    len := 0;
    for i := 0 to size
      invariant len == Start(keys, size, line, i)
      invariant forall b :: 0 <= b < i ==>
        test[b] == if Load(keys, |keys|, size, b) == 0 then PTR_SIZE else Room(keys, size, line, b)
      invariant forall b :: i <= b < size ==> test[b] == PTR_SIZE + Load(keys, |keys|, size, b)
    {
      if test[i] == PTR_SIZE {
        continue;
      }
      test[i] := Align(test[i], line) % 0x1_0000;
      len := len + test[i];
    }
  }

  /** The bucket pointers: one region of the block after another, NULL for an empty bucket. */
  method PlaceBuckets(keys: seq<Key>, size: nat, line: nat, elts0: nat, test: array<nat>) returns (buckets: seq<nat>)
    requires 0 < size <= test.Length && Granule(line)
    requires forall b :: 0 <= b < size ==>
      test[b] == if Load(keys, |keys|, size, b) == 0 then PTR_SIZE else Room(keys, size, line, b)
    ensures |buckets| == size
    ensures forall b :: 0 <= b < size ==>
      buckets[b] == if Load(keys, |keys|, size, b) == 0 then 0 else elts0 + Start(keys, size, line, b)
  {
    hide Load;
    buckets := [];
    var elts := elts0;
    for i := 0 to size
      invariant |buckets| == i && elts == elts0 + Start(keys, size, line, i)
      invariant forall b :: 0 <= b < i ==>
        buckets[b] == if Load(keys, |keys|, size, b) == 0 then 0 else elts0 + Start(keys, size, line, b)
    {
      RoomIsWide(keys, size, line, i);
      if test[i] == PTR_SIZE {
        buckets := buckets + [0];
        continue;
      }
      buckets := buckets + [elts];
      elts := elts + test[i];
    }
  }

  lemma RoomIsWide(keys: seq<Key>, size: nat, line: nat, b: nat)
    requires size > 0 && Granule(line)
    ensures Room(keys, size, line, b) > PTR_SIZE || Load(keys, |keys|, size, b) == 0 == Room(keys, size, line, b)
  {
  }

  /** Stores a pointer as 8 bytes. */
  method StoreValue(mem: array<Byte>, p: nat, value: nat)
    requires p + PTR_SIZE <= mem.Length && value < Pow256(PTR_SIZE)
    modifies mem
    ensures ValueAt(mem[..], p) == value
    ensures forall i :: 0 <= i < mem.Length && !(p <= i < p + PTR_SIZE) ==> mem[i] == old(mem[i])
  {
    var bytes := Le(value, PTR_SIZE);
    forall i | 0 <= i < PTR_SIZE {
      mem[p + i] := bytes[i];
    }
    assert mem[..][p..p + PTR_SIZE] == bytes;
    LeRoundTrip(value, PTR_SIZE);
  }

  /** Writes one element: value, length and lower-cased name. */
  method StoreElt(mem: array<Byte>, p: nat, name: Bytes, value: nat)
    requires p + NAME_OFFSET + |name| <= mem.Length && value < Pow256(PTR_SIZE) && |name| < Pow256(2)
    modifies mem
    ensures EltAt(mem[..], p, LowerAll(name), value)
    ensures forall i :: 0 <= i < mem.Length && !(p <= i < p + NAME_OFFSET + |name|) ==> mem[i] == old(mem[i])
  {
    hide ValueAt, Le, FromLe, Pow256;
    StoreValue(mem, p, value);
    ghost var m := mem[..];
    var len := Le(|name|, 2);
    mem[p + PTR_SIZE], mem[p + PTR_SIZE + 1] := len[0], len[1];
    LeRoundTrip(|name|, 2);
    var lower := LowerAll(name);
    for i := 0 to |name|
      invariant forall k :: 0 <= k < i ==> mem[p + NAME_OFFSET + k] == lower[k]
      invariant mem[p + PTR_SIZE] == len[0] && mem[p + PTR_SIZE + 1] == len[1]
      invariant forall k :: 0 <= k < mem.Length && !(p + PTR_SIZE <= k < p + NAME_OFFSET + |name|) ==> mem[k] == m[k]
    {
      mem[p + NAME_OFFSET + i] := Lower(name[i]);
    }
    assert mem[..][p + PTR_SIZE..p + NAME_OFFSET] == len;
    assert mem[..][p + NAME_OFFSET..p + NAME_OFFSET + |name|] == lower;
    ValueFrame(m, mem[..], p);
  }

  lemma ValueFrame(m: Bytes, m': Bytes, p: nat)
    requires p + PTR_SIZE <= |m| == |m'| && forall i :: p <= i < p + PTR_SIZE ==> m'[i] == m[i]
    ensures ValueAt(m', p) == ValueAt(m, p)
  {
    assert m[p..p + PTR_SIZE] == m'[p..p + PTR_SIZE];
  }

  lemma EltRoom(name: Bytes)
    ensures NAME_OFFSET + |name| <= EltSize(name) && |LowerAll(name)| == |name|
  {
  }

  /** Changes elsewhere leave an element alone. */
  lemma EltFrame(m: Bytes, m': Bytes, p: nat, name: Bytes, value: nat)
    requires EltAt(m, p, name, value) && |m'| == |m|
    requires forall i :: p <= i < p + NAME_OFFSET + |name| ==> m'[i] == m[i]
    ensures EltAt(m', p, name, value)
  {
    hide FromLe;
    assert m[p..p + PTR_SIZE] == m'[p..p + PTR_SIZE];
    assert m[p + PTR_SIZE..p + NAME_OFFSET] == m'[p + PTR_SIZE..p + NAME_OFFSET];
    assert m[p + NAME_OFFSET..p + NAME_OFFSET + |name|] == m'[p + NAME_OFFSET..p + NAME_OFFSET + |name|];
  }

  /** Writing key n where it belongs keeps the keys before it. */
  lemma StoredNext(m: Bytes, m': Bytes, off: nat, keys: seq<Key>, n: nat, size: nat, line: nat)
    requires n < |keys| && size > 0 && Granule(line) && !keys[n].dropped
    requires Stored(m, off, keys, n, size, line) && |m'| == |m|
    requires var p := off + Place(keys, n, size, line);
      && EltAt(m', p, LowerAll(keys[n].name), keys[n].value)
      && forall i :: 0 <= i < |m| && !(p <= i < p + NAME_OFFSET + |keys[n].name|) ==> m'[i] == m[i]
    ensures Stored(m', off, keys, n + 1, size, line)
  {
    hide EltAt, Place, EltSize, Load, Start, Bucket, LowerAll;
    forall j | 0 <= j < n && !keys[j].dropped
      ensures EltAt(m', off + Place(keys, j, size, line), LowerAll(keys[j].name), keys[j].value)
    {
      PlacesDisjoint(keys, j, n, size, line);
      EltRoom(keys[j].name);
      EltRoom(keys[n].name);
      EltLength(m, off + Place(keys, j, size, line), LowerAll(keys[j].name), keys[j].value);
      EltFrame(m, m', off + Place(keys, j, size, line), LowerAll(keys[j].name), keys[j].value);
    }
  }

  /** Writing bucket b's NULL pointer keeps all elements and the NULL pointers before it. */
  lemma TerminatedNext(m: Bytes, m': Bytes, off: nat, keys: seq<Key>, b: nat, size: nat, line: nat)
    requires b < size && Granule(line) && Load(keys, |keys|, size, b) > 0
    requires Stored(m, off, keys, |keys|, size, line) && Terminated(m, off, keys, b, size, line) && |m'| == |m|
    requires var p := off + Sentinel(keys, size, line, b);
      && p + PTR_SIZE <= |m| && ValueAt(m', p) == 0
      && forall i :: 0 <= i < |m| && !(p <= i < p + PTR_SIZE) ==> m'[i] == m[i]
    ensures Stored(m', off, keys, |keys|, size, line) && Terminated(m', off, keys, b + 1, size, line)
  {
    hide EltAt, Place, Sentinel, ValueAt, Load;
    forall j | 0 <= j < |keys| && !keys[j].dropped
      ensures EltAt(m', off + Place(keys, j, size, line), LowerAll(keys[j].name), keys[j].value)
    {
      SentinelDisjoint(keys, j, b, size, line);
      EltLength(m, off + Place(keys, j, size, line), LowerAll(keys[j].name), keys[j].value);
      EltFrame(m, m', off + Place(keys, j, size, line), LowerAll(keys[j].name), keys[j].value);
    }
    forall c | 0 <= c < b && Load(keys, |keys|, size, c) > 0
      ensures ValueAt(m', off + Sentinel(keys, size, line, c)) == 0
    {
      SentinelsDisjoint(keys, c, b, size, line);
      ValueFrame(m, m', off + Sentinel(keys, size, line, c));
    }
  }

  lemma EltLength(m: Bytes, p: nat, name: Bytes, value: nat)
    requires EltAt(m, p, name, value)
    ensures p + NAME_OFFSET + |name| <= |m|
  {
  }

  lemma NothingStored(test: seq<nat>, m: Bytes, off: nat, keys: seq<Key>, size: nat, line: nat)
    requires 0 < size <= |test| && Granule(line) && forall b :: 0 <= b < size ==> test[b] == 0
    ensures Sums(test, keys, 0, size, 0) && Stored(m, off, keys, 0, size, line)
  {
  }

  lemma SkipsDropped(test: seq<nat>, m: Bytes, off: nat, keys: seq<Key>, n: nat, size: nat, line: nat)
    requires n < |keys| && keys[n].dropped && size > 0 && Granule(line)
    requires Sums(test, keys, n, size, 0) && Stored(m, off, keys, n, size, line)
    ensures Sums(test, keys, n + 1, size, 0) && Stored(m, off, keys, n + 1, size, line)
  {
    hide EltAt, Bucket, Align, EltSize, LowerAll, Place;
  }

  /** The sum of a key's bucket says where the key goes. */
  lemma WhereNext(test: seq<nat>, keys: seq<Key>, n: nat, size: nat, line: nat)
    requires n < |keys| && !keys[n].dropped && size > 0 && Granule(line)
    requires Sums(test, keys, n, size, 0) && NoOverflow(keys, size, line)
    ensures var b, elt := Bucket(keys[n], size), EltSize(keys[n].name);
      && Start(keys, size, line, b) + test[b] == Place(keys, n, size, line)
      && Place(keys, n, size, line) + NAME_OFFSET + |keys[n].name| <= Start(keys, size, line, size)
      && test[b] + elt <= MAX_LOAD
      && Load(keys, |keys|, size, b) > 0
      && Sums(test[b := test[b] + elt], keys, n + 1, size, 0)
  {
    hide EltSize, Bucket, Align;
    LoadGrows(keys, n + 1, |keys|, size, Bucket(keys[n], size));
    PlaceFits(keys, n, size, line);
    EltRoom(keys[n].name);
  }

  /** The loop that writes the elements. */
  method WriteElements(
      keys: seq<Key>, size: nat, line: nat, block: nat, buckets: seq<nat>, test: array<nat>, mem: array<Byte>)
    requires 0 < size <= test.Length && |buckets| == size && Granule(line) && NoOverflow(keys, size, line)
    requires Align(block, line) - block + Start(keys, size, line, size) <= mem.Length
    requires forall b :: 0 <= b < size ==>
      buckets[b] == if Load(keys, |keys|, size, b) == 0 then 0 else Align(block, line) + Start(keys, size, line, b)
    requires forall k :: k in keys && !k.dropped ==> k.value < Pow256(PTR_SIZE) && |k.name| < Pow256(2)
    modifies test, mem
    ensures Stored(mem[..], Align(block, line) - block, keys, |keys|, size, line)
    ensures Sums(test[..], keys, |keys|, size, 0)
  {
    hide EltSize, Bucket, Align, EltAt, Pow256, Stored, Load, Start, Place, Sums, NoOverflow, LowerAll;
    ghost var off := Align(block, line) - block;
    for i := 0 to size
      invariant forall b :: 0 <= b < i ==> test[b] == 0
    {
      test[i] := 0;
    }
    NothingStored(test[..], mem[..], off, keys, size, line);
    for n := 0 to |keys|
      invariant Sums(test[..], keys, n, size, 0)
      invariant Stored(mem[..], off, keys, n, size, line)
    {
      if keys[n].dropped {
        SkipsDropped(test[..], mem[..], off, keys, n, size, line);
        continue;
      }
      assert keys[n] in keys;
      var key := Bucket(keys[n], size);
      WhereNext(test[..], keys, n, size, line);
      ghost var m := mem[..];
      StoreElt(mem, buckets[key] + test[key] - block, keys[n].name, keys[n].value);
      StoredNext(m, mem[..], off, keys, n, size, line);
      ghost var t := test[..];
      test[key] := (test[key] + EltSize(keys[n].name)) % 0x1_0000;
      assert test[..] == t[key := t[key] + EltSize(keys[n].name)];
    }
  }

  /** The loop that ends each bucket with a NULL value. */
  method Terminate(
      keys: seq<Key>, size: nat, line: nat, block: nat, buckets: seq<nat>, test: array<nat>, mem: array<Byte>)
    requires 0 < size <= test.Length && |buckets| == size && Granule(line)
    requires Align(block, line) - block + Start(keys, size, line, size) <= mem.Length
    requires forall b :: 0 <= b < size ==>
      buckets[b] == if Load(keys, |keys|, size, b) == 0 then 0 else Align(block, line) + Start(keys, size, line, b)
    requires block > 0 && Sums(test[..], keys, |keys|, size, 0)
    requires Stored(mem[..], Align(block, line) - block, keys, |keys|, size, line)
    modifies mem
    ensures Stored(mem[..], Align(block, line) - block, keys, |keys|, size, line)
    ensures Terminated(mem[..], Align(block, line) - block, keys, size, size, line)
  {
    hide Load, Align, EltAt, Stored, Terminated, ValueAt, Pow256;
    ghost var off := Align(block, line) - block;
    NoneTerminated(mem[..], off, keys, size, line);
    for i := 0 to size
      invariant Stored(mem[..], off, keys, |keys|, size, line)
      invariant Terminated(mem[..], off, keys, i, size, line)
    {
      if buckets[i] == 0 {
        TerminatedEmpty(mem[..], off, keys, i, size, line);
        continue;
      }
      SentinelFits(keys, i, size, line);
      ghost var m := mem[..];
      StoreValue(mem, buckets[i] + test[i] - block, 0);
      TerminatedNext(m, mem[..], off, keys, i, size, line);
    }
  }

  lemma NoneTerminated(m: Bytes, off: nat, keys: seq<Key>, size: nat, line: nat)
    requires size > 0 && Granule(line)
    ensures Terminated(m, off, keys, 0, size, line) && 0 < Pow256(PTR_SIZE)
  {
  }

  lemma TerminatedEmpty(m: Bytes, off: nat, keys: seq<Key>, b: nat, size: nat, line: nat)
    requires b < size && Granule(line) && Terminated(m, off, keys, b, size, line)
    requires Load(keys, |keys|, size, b) == 0
    ensures Terminated(m, off, keys, b + 1, size, line)
  {
  }

  lemma SentinelFits(keys: seq<Key>, b: nat, size: nat, line: nat)
    requires b < size && Granule(line) && Load(keys, |keys|, size, b) > 0
    ensures Sentinel(keys, size, line, b) + PTR_SIZE <= Start(keys, size, line, size)
  {
    StartGrows(keys, size, line, b, size);
  }

  /** Every name leaves room for the NULL pointer in a bucket of its own. */
  ghost predicate NamesFit(keys: seq<Key>, bucketSize: nat) {
    forall k :: k in keys ==> EltSize(k.name) + PTR_SIZE <= bucketSize
  }

  /** A bucket takes at least the smallest element, and no u_short sum overflows. */
  ghost predicate InRange(keys: seq<Key>, maxSize: nat, bucketSize: nat, line: nat)
    requires Granule(line)
  {
    && 3 * PTR_SIZE <= bucketSize
    && (forall k :: k in keys ==> EltSize(k.name) + bucketSize - PTR_SIZE <= MAX_LOAD)
    && forall size :: 0 < size && Chosen(keys, maxSize, bucketSize - PTR_SIZE, size) ==> NoOverflow(keys, size, line)
  }

  /**
    ngx_hash_init.  The block of elements is the one at address `block`, which the pool is asked
    for last; the three flags say whether the allocations succeed.
   */
  method Init(keys: seq<Key>, maxSize: nat, bucketSize: nat, line: nat, block: nat,
              testOk: bool, bucketsOk: bool, eltsOk: bool) returns (r: Result<Hash>)
    requires Granule(line) && block > 0
    requires forall k :: k in keys && !k.dropped ==> 0 < k.value < Pow256(PTR_SIZE)
    requires NamesFit(keys, bucketSize) ==> InRange(keys, maxSize, bucketSize, line)
    ensures r.Error? <==> maxSize == 0 || !NamesFit(keys, bucketSize) || !testOk || !bucketsOk || !eltsOk
    ensures r.Ok? ==> r.value.Holds(keys, line)
    ensures r.Ok? ==> 3 * PTR_SIZE <= bucketSize && Chosen(keys, maxSize, bucketSize - PTR_SIZE, r.value.size)
  {
    hide EltSize, Align, NoOverflow, Stored, Terminated, Chosen, Sums, Load, Start, Room;
    if maxSize == 0 {
      return Error;
    }
    for n := 0 to |keys|
      invariant forall i :: 0 <= i < n ==> EltSize(keys[i].name) + PTR_SIZE <= bucketSize
    {
      if bucketSize < EltSize(keys[n].name) + PTR_SIZE {
        assert keys[n] in keys;
        return Error;
      }
    }
    if !testOk {
      return Error;
    }
    var test := new nat[maxSize];
    var room := bucketSize - PTR_SIZE;
    var size := ChooseSize(keys, maxSize, room, test);
    ChosenInRange(keys, maxSize, room, size);
    Measure(keys, size, line, test);
    var len := RoundUp(keys, size, line, test);
    if !bucketsOk || !eltsOk {
      return Error;
    }
    var mem := new Byte[len + line];
    var elts := Align(block, line);
    var buckets := PlaceBuckets(keys, size, line, elts, test);
    ShortNames(keys, bucketSize);
    WriteElements(keys, size, line, block, buckets, test, mem);
    Terminate(keys, size, line, block, buckets, test, mem);
    var h := new Hash(size, buckets, block, mem);
    r := Ok(h);
  }

  lemma ChosenInRange(keys: seq<Key>, maxSize: nat, room: nat, size: nat)
    requires room >= 2 * PTR_SIZE && maxSize > 0 && Chosen(keys, maxSize, room, size)
    ensures 0 < size <= maxSize
  {
  }

  lemma ShortNames(keys: seq<Key>, bucketSize: nat)
    requires bucketSize >= PTR_SIZE && forall k :: k in keys ==> EltSize(k.name) + bucketSize - PTR_SIZE <= MAX_LOAD
    ensures forall k :: k in keys ==> |k.name| < Pow256(2)
  {
    forall k | k in keys ensures |k.name| < Pow256(2) {
      EltRoom(k.name);
      assert Pow256(1) == 256;
    }
  }
}
