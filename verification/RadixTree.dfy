/**
  The radix tree of src/core/ngx_radix_tree.c: a binary trie over address bits with parent
  pointers, pruning deletion and recycled nodes, used for CIDR lookups.

  A node's place in the tree is its ghost `path`, the bits that lead to it.  `contents` is the
  finite map from prefixes to values the tree stands for; every operation, on 32-bit and on
  128-bit keys, is proved against it.
 */
module RadixTree {
  import opened Octets

  /** NGX_RADIX_NO_VALUE, (uintptr_t) -1 */
  const NO_VALUE: nat := 0xffff_ffff_ffff_ffff

  const NODE_SIZE: nat := 32
  const PAGE_SIZE: nat := 4096

  type Uint32 = x: int | 0 <= x < 0x1_0000_0000

  datatype Rc = OK | BUSY | ERROR

  // ---------- bits of keys and masks ----------

  function Pow2(n: nat): (p: nat)
    ensures p > 0
  {
    if n == 0 then 1 else 2 * Pow2(n - 1)
  }

  lemma TopBit()
    ensures Pow2(7) == 0x80 && Pow2(8) == 0x100 && Pow2(31) == 0x8000_0000 && Pow2(32) == 0x1_0000_0000
  {
    assert Pow2(4) == 16 && Pow2(8) == 256;
    assert Pow2(12) == 4096 && Pow2(16) == 65536;
    assert Pow2(20) == 0x10_0000 && Pow2(24) == 0x100_0000;
    assert Pow2(28) == 0x1000_0000;
    assert Pow2(31) == 0x8000_0000;
  }

  /** `word & bit`, for `bit` zero or a power of two. */
  predicate Test(word: nat, bit: nat) {
    if bit == 0 then false
    else if bit == 1 then word % 2 == 1
    else Test(word / 2, bit / 2)
  }

  /** The bits of a 32-bit word, most significant first. */
  function Bits32(word: Uint32): (s: seq<bool>)
    ensures |s| == 32
  {
    seq(32, i requires 0 <= i < 32 => Test(word, Pow2(31 - i)))
  }

  /** The number a string of bits stands for, most significant first. */
  function Number(bits: seq<bool>): (n: nat)
  {
    if bits == [] then 0 else 2 * Number(bits[..|bits| - 1]) + (if bits[|bits| - 1] then 1 else 0)
  }

  lemma {:induction false} NumberOfTests(word: nat, bits: seq<bool>)
    requires word < Pow2(|bits|)
    requires forall i :: 0 <= i < |bits| ==> bits[i] == Test(word, Pow2(|bits| - 1 - i))
    ensures Number(bits) == word
  {
    if bits != [] {
      var rest := bits[..|bits| - 1];
      forall i | 0 <= i < |rest| ensures rest[i] == Test(word / 2, Pow2(|rest| - 1 - i)) {
        assert Pow2(|bits| - 1 - i) == 2 * Pow2(|rest| - 1 - i);
      }
      NumberOfTests(word / 2, rest);
    }
  }

  /** The tests with one bit after the other read the word's binary digits. */
  lemma Bits32AreDigits(word: Uint32)
    ensures Number(Bits32(word)) == word
  {
    hide Test, Pow2, Number;
    TopBit();
    NumberOfTests(word, Bits32(word));
  }

  /** What `word & bit` and `bit >>= 1` do at depth d of a 32-bit key. */
  lemma StepBit32(word: Uint32, d: nat, bit: nat)
    requires bit == if d < 32 then Pow2(31 - d) else 0
    ensures Test(word, bit) == (d < 32 && Bits32(word)[d])
    ensures bit / 2 == if d + 1 < 32 then Pow2(31 - (d + 1)) else 0
  {
  }

  /** The bits of a 16-byte address in network order. */
  function Bits128(bytes: seq<Byte>): (s: seq<bool>)
    requires |bytes| >= 16
    ensures |s| == 128
  {
    seq(128, i requires 0 <= i < 128 => Test(bytes[i / 8], Pow2(7 - i % 8)))
  }

  lemma Bits128AreDigits(bytes: seq<Byte>, k: nat)
    requires |bytes| >= 16 && k < 16
    ensures Number(Bits128(bytes)[8 * k..8 * k + 8]) == bytes[k]
  {
    hide Number, Test, Pow2, Bits128;
    TopBit();
    var bits := Bits128(bytes)[8 * k..8 * k + 8];
    forall i | 0 <= i < 8 ensures bits[i] == Test(bytes[k], Pow2(7 - i)) {
      assert bits[i] == Bits128(bytes)[8 * k + i];
      BitOfByte(bytes, k, i);
    }
    NumberOfTests(bytes[k], bits);
  }

  lemma BitOfByte(bytes: seq<Byte>, k: nat, i: nat)
    requires |bytes| >= 16 && k < 16 && i < 8
    ensures Bits128(bytes)[8 * k + i] == Test(bytes[k], Pow2(7 - i))
  {
    hide Test, Pow2;
    assert (8 * k + i) / 8 == k && (8 * k + i) % 8 == i;
  }

  /** How many leading bits of a mask are set: the insertion loop stops at the first clear one. */
  function LeadingOnes(mask: seq<bool>): nat {
    OnesFrom(mask, 0)
  }

  function OnesFrom(mask: seq<bool>, n: nat): nat
    decreases |mask| - n
  {
    if n < |mask| && mask[n] then OnesFrom(mask, n + 1) else n
  }

  /** Whether depth d is below, at or beyond the first clear bit shows in the bit at depth d. */
  lemma {:induction false} OnesAt(mask: seq<bool>, d: nat, n: nat)
    requires n <= |mask|
    ensures n <= OnesFrom(mask, n) <= |mask|
    ensures n <= d <= OnesFrom(mask, n) ==> (d < OnesFrom(mask, n) <==> d < |mask| && mask[d])
    decreases |mask| - n
  {
    if n < |mask| && mask[n] {
      OnesAt(mask, d, n + 1);
    }
  }

  /** The loop variables of a 128-bit walk at depth d: byte i, and the bit within it. */
  ghost predicate At128(d: nat, i: nat, bit: nat) {
    if d < 128 then i == d / 8 && bit == Pow2(7 - d % 8) else d == 128 && i == 16
  }

  lemma StepBit128(bytes: seq<Byte>, d: nat, i: nat, bit: nat)
    requires |bytes| >= 16 && At128(d, i, bit) && d < 128
    ensures i < 16 && Test(bytes[i], bit) == Bits128(bytes)[d]
    ensures bit / 2 == 0 <==> d % 8 == 7
    ensures At128(d + 1, if bit / 2 == 0 then i + 1 else i, if bit / 2 == 0 then 0x80 else bit / 2)
  {
    TopBit();
    assert d % 8 == 7 ==> bit == 1;
    assert d % 8 < 7 ==> bit == 2 * Pow2(7 - (d + 1) % 8);
  }

  function Prefix(key: seq<bool>, mask: seq<bool>): seq<bool>
    requires |key| == |mask|
  {
    OnesAt(mask, 0, 0);
    key[..LeadingOnes(mask)]
  }

  // ---------- longest-prefix match ----------

  /** The value of the longest of the prefixes key[..0], ..., key[..n - 1] present in m. */
  function LongestBelow(m: map<seq<bool>, nat>, key: seq<bool>, n: nat): nat
    requires n <= |key| + 1
  {
    if n == 0 then NO_VALUE
    else if key[..n - 1] in m then m[key[..n - 1]]
    else LongestBelow(m, key, n - 1)
  }

  function LongestMatch(m: map<seq<bool>, nat>, key: seq<bool>): nat {
    LongestBelow(m, key, |key| + 1)
  }

  lemma {:induction false} LongestBelowSkips(m: map<seq<bool>, nat>, key: seq<bool>, lo: nat, hi: nat)
    requires lo <= hi <= |key| + 1
    requires forall i :: lo <= i < hi ==> key[..i] !in m
    ensures LongestBelow(m, key, hi) == LongestBelow(m, key, lo)
  {
    if lo < hi {
      LongestBelowSkips(m, key, lo, hi - 1);
    }
  }

  /** LongestMatch is the value of the longest prefix of the key that is present, key[..i]; with i == -1 none is. */
  lemma LongestMatchIsLongest(m: map<seq<bool>, nat>, key: seq<bool>, i: int)
    requires -1 <= i <= |key| && (i >= 0 ==> key[..i] in m)
    requires forall j :: i < j <= |key| ==> key[..j] !in m
    ensures LongestMatch(m, key) == if i >= 0 then m[key[..i]] else NO_VALUE
  {
    LongestBelowSkips(m, key, i + 1, |key| + 1);
  }

  // ---------- the tree ----------

  /** The address of a node; 0 is NULL. */
  type Ptr = int
  const NULL: Ptr := 0

  datatype Node = Node(right: Ptr, left: Ptr, parent: Ptr, value: int)

  type Memory = map<Ptr, Node>

  function Child(x: Node, b: bool): Ptr {
    if b then x.right else x.left
  }

  /** Node x sits at path[x]: its children, its parent and the index `at` agree with that. */
  ghost predicate Linked(mem: Memory, root: Ptr, path: map<Ptr, seq<bool>>, at: map<seq<bool>, Ptr>, x: Ptr)
    requires x in path
  {
    && x in mem && x != NULL
    && path[x] in at && at[path[x]] == x
    && (forall b :: Child(mem[x], b) != NULL ==>
          var y := Child(mem[x], b);
          y in path && y in mem && mem[y].parent == x && path[y] == path[x] + [b])
    && (x == root ==> mem[x].parent == NULL && path[x] == [])
    && (x != root ==>
          && path[x] != [] && mem[x].parent in path && mem[x].parent in mem
          && Child(mem[mem[x].parent], path[x][|path[x]| - 1]) == x)
  }

  /** The nodes in `path` form a binary trie; `at` is the inverse of `path`. */
  ghost predicate Shaped(mem: Memory, root: Ptr, path: map<Ptr, seq<bool>>, at: map<seq<bool>, Ptr>, depth: nat) {
    && root in path
    && (forall x {:trigger Linked(mem, root, path, at, x)} :: x in path ==> Linked(mem, root, path, at, x))
    && (forall p {:trigger at[p]} :: p in at ==> at[p] in path && path[at[p]] == p && |p| <= depth)
  }

  /** The list that starts at p and runs through the nodes' `right` links visits each of `spare` once. */
  ghost predicate FreeList(mem: Memory, p: Ptr, spare: set<Ptr>)
    decreases |spare|
  {
    if p == NULL then spare == {}
    else p in spare && p in mem && FreeList(mem, mem[p].right, spare - {p})
  }

  /** A prefix is in the map exactly if its node carries a value. */
  ghost predicate Stores(mem: Memory, at: map<seq<bool>, Ptr>, contents: map<seq<bool>, nat>) {
    && (forall p :: p in contents ==> p in at && at[p] in mem && mem[at[p]].value == contents[p] != NO_VALUE)
    && (forall p {:trigger p in at} :: p in at && p !in contents ==> at[p] in mem && mem[at[p]].value == NO_VALUE)
  }

  // ---------- facts about the shape ----------

  lemma LinkedAt(mem: Memory, root: Ptr, path: map<Ptr, seq<bool>>, at: map<seq<bool>, Ptr>, depth: nat, x: Ptr)
    requires Shaped(mem, root, path, at, depth) && x in path
    ensures Linked(mem, root, path, at, x) && |path[x]| <= depth
  {
    assert Linked(mem, root, path, at, x);
  }

  /** A path is in the tree only together with all its prefixes. */
  lemma {:induction false} PrefixClosed(
      mem: Memory, root: Ptr, path: map<Ptr, seq<bool>>, at: map<seq<bool>, Ptr>, depth: nat, p: seq<bool>, n: nat)
    requires Shaped(mem, root, path, at, depth) && p in at && n <= |p|
    ensures p[..n] in at
    decreases |p|
  {
    if n == |p| {
      assert p[..n] == p;
    } else {
      var x := at[p];
      LinkedAt(mem, root, path, at, depth, x);
      var q := path[mem[x].parent];
      LinkedAt(mem, root, path, at, depth, mem[x].parent);
      assert p == q + [p[|p| - 1]];
      PrefixClosed(mem, root, path, at, depth, q, n);
      assert p[..n] == q[..n];
    }
  }

  /** The only node whose path extends x's by one bit is x's child for that bit. */
  lemma ChildOnly(
      mem: Memory, root: Ptr, path: map<Ptr, seq<bool>>, at: map<seq<bool>, Ptr>, depth: nat, x: Ptr, b: bool)
    requires Shaped(mem, root, path, at, depth) && x in path
    ensures x in mem
    ensures path[x] + [b] in at ==> at[path[x] + [b]] == Child(mem[x], b) != NULL
  {
    LinkedAt(mem, root, path, at, depth, x);
    var q := path[x] + [b];
    if q in at {
      var y := at[q];
      LinkedAt(mem, root, path, at, depth, y);
      var z := mem[y].parent;
      LinkedAt(mem, root, path, at, depth, z);
      assert path[z] == q[..|q| - 1] == path[x];
    }
  }

  /** When a node has no child for the next key bit, no node of the tree lies further along the key. */
  lemma NothingBelow(mem: Memory, root: Ptr, path: map<Ptr, seq<bool>>, at: map<seq<bool>, Ptr>, x: Ptr, key: seq<bool>)
    requires Shaped(mem, root, path, at, |key|) && x in path && |path[x]| <= |key| && path[x] == key[..|path[x]|]
    requires |path[x]| < |key| ==> x in mem && Child(mem[x], key[|path[x]|]) == NULL
    ensures forall n :: |path[x]| < n <= |key| ==> key[..n] !in at
  {
    var d := |path[x]|;
    forall n | d < n <= |key| ensures key[..n] !in at {
      if key[..n] in at {
        PrefixClosed(mem, root, path, at, |key|, key[..n], d + 1);
        assert key[..n][..d + 1] == path[x] + [key[d]];
        ChildOnly(mem, root, path, at, |key|, x, key[d]);
      }
    }
  }

  ghost predicate GrownFrom(p: seq<bool>, at0: map<seq<bool>, Ptr>, at: map<seq<bool>, Ptr>) {
    && (forall q :: q in at0 ==> q in at && at[q] == at0[q])
    && (forall q :: q in at ==> q in at0 || q <= p)
  }

  /** How many nodes of the path to p the tree does not have. */
  function Missing(p: seq<bool>, at: map<seq<bool>, Ptr>): nat
    decreases |p|
  {
    if p in at || p == [] then 0 else 1 + Missing(p[..|p| - 1], at)
  }

  lemma {:induction false} MissingFrom(bits: seq<bool>, at: map<seq<bool>, Ptr>, d: nat, n: nat)
    requires d <= n <= |bits| && bits[..d] in at && forall i :: d < i <= n ==> bits[..i] !in at
    ensures Missing(bits[..n], at) == n - d
  {
    if d < n {
      MissingFrom(bits, at, d, n - 1);
      assert bits[..n][..n - 1] == bits[..n - 1];
    }
  }

  /** The node for q is there for the sake of a stored prefix, or of one that p is not below. */
  ghost predicate Needed(q: seq<bool>, p: seq<bool>, at: map<seq<bool>, Ptr>, contents: map<seq<bool>, nat>) {
    exists r :: r in at && q <= r && (r in contents || !(r <= p))
  }

  /** The nodes that go when the leaf at p goes: it and those above it that are needed for nothing else. */
  ghost predicate Goes(q: seq<bool>, p: seq<bool>, at: map<seq<bool>, Ptr>, contents: map<seq<bool>, nat>) {
    q != [] && q <= p && !Needed(q, p, at, contents)
  }

  /** While nodes are taken off one by one from p upwards: what is gone, and that it had to go. */
  ghost predicate Thinned(
      p: seq<bool>, at0: map<seq<bool>, Ptr>, at: map<seq<bool>, Ptr>, contents: map<seq<bool>, nat>, n: nat)
  {
    && n <= |p|
    && (forall q :: q in at ==> q in at0 && at[q] == at0[q])
    && (forall q :: q in at0 && q !in at ==> Goes(q, p, at0, contents))
    && (forall q :: q in at && q <= p ==> |q| <= n)
  }

  lemma ThinnedStart(p: seq<bool>, at: map<seq<bool>, Ptr>, contents: map<seq<bool>, nat>)
    ensures Thinned(p, at, at, contents, |p|)
  {
  }

  lemma PrefixIs(r: seq<bool>, p: seq<bool>)
    requires r <= p
    ensures r == p[..|r|]
  {
  }

  /** The node for p[..n] has nothing below it and no value. */
  lemma ThinnedNext(p: seq<bool>, at0: map<seq<bool>, Ptr>, at: map<seq<bool>, Ptr>, contents: map<seq<bool>, nat>,
                    n: nat)
    requires Thinned(p, at0, at, contents, n) && 0 < n && p[..n] in at && p[..n] !in contents
    requires forall r :: r in at && p[..n] <= r ==> r == p[..n]
    ensures Thinned(p, at0, at - {p[..n]}, contents, n - 1)
  {
    var q := p[..n];
    forall r | r in at0 && q <= r ensures r !in contents && r <= p {
      if r !in at {
        assert Goes(r, p, at0, contents);
        if r in contents {
          assert r <= r && Needed(r, p, at0, contents);
        }
      }
    }
    forall r | r in at - {q} && r <= p ensures |r| <= n - 1 {
      PrefixIs(r, p);
    }
  }

  /** Where the pruning stops, the node has a value or a child that p is not below, or is the root. */
  lemma ThinnedEnd(p: seq<bool>, at0: map<seq<bool>, Ptr>, at: map<seq<bool>, Ptr>, contents: map<seq<bool>, nat>,
                   n: nat, q: seq<bool>)
    requires Thinned(p, at0, at, contents, n) && q in at0
    requires n == 0 || exists r :: r in at && p[..n] <= r && (r in contents || !(r <= p))
    ensures q in at <==> !Goes(q, p, at0, contents)
  {
    if q in at && q != [] && q <= p {
      var r :| r in at && p[..n] <= r && (r in contents || !(r <= p));
      assert q == p[..|q|];
      assert q <= p[..n];
      assert Needed(q, p, at0, contents);
    }
  }

  /** One step down the tree is one more bit of the key. */
  lemma StepDown(mem: Memory, root: Ptr, path: map<Ptr, seq<bool>>, at: map<seq<bool>, Ptr>, depth: nat,
                 x: Ptr, bits: seq<bool>, d: nat)
    requires Shaped(mem, root, path, at, depth) && x in path && d < |bits| && path[x] == bits[..d]
    ensures x in mem
    ensures var y := Child(mem[x], bits[d]);
            y != NULL ==> y in path && y in mem && path[y] == bits[..d + 1]
  {
    LinkedAt(mem, root, path, at, depth, x);
    assert bits[..d + 1] == bits[..d] + [bits[d]];
  }

  /** The free list is unaffected by changes elsewhere. */
  lemma {:induction false} FreeListFrame(mem: Memory, p: Ptr, spare: set<Ptr>, mem': Memory)
    requires FreeList(mem, p, spare)
    requires forall x :: x in spare && x in mem ==> x in mem' && mem'[x] == mem[x]
    ensures FreeList(mem', p, spare)
    decreases |spare|
  {
    if p != NULL {
      FreeListFrame(mem, mem[p].right, spare - {p}, mem');
    }
  }

  function WithChild(x: Node, b: bool, y: Ptr): Node {
    if b then x.(right := y) else x.(left := y)
  }

  lemma ShapedFrame(
      mem: Memory, root: Ptr, path: map<Ptr, seq<bool>>, at: map<seq<bool>, Ptr>, depth: nat, mem': Memory)
    requires Shaped(mem, root, path, at, depth)
    requires forall x :: x in path && x in mem ==> x in mem' && mem'[x] == mem[x]
    ensures Shaped(mem', root, path, at, depth)
  {
    forall x | x in path ensures Linked(mem', root, path, at, x) {
      LinkedAt(mem, root, path, at, depth, x);
      assert forall b :: Child(mem'[x], b) == Child(mem[x], b);
    }
  }

  /** What memory is after a new leaf y has been hung below x. */
  ghost predicate LeafHung(mem: Memory, path: map<Ptr, seq<bool>>, x: Ptr, b: bool, y: Ptr, mem': Memory) {
    && x in path && x in mem && Child(mem[x], b) == NULL && y !in path && y != NULL
    && (forall z :: z in path ==> z in mem')
    && (forall z :: z in path && z in mem && z != x ==> mem'[z] == mem[z])
    && mem'[x] == WithChild(mem[x], b, y)
    && y in mem' && mem'[y] == Node(NULL, NULL, x, NO_VALUE)
  }

  lemma LinkedAfterLink(mem: Memory, root: Ptr, path: map<Ptr, seq<bool>>, at: map<seq<bool>, Ptr>,
                        x: Ptr, b: bool, y: Ptr, mem': Memory, z: Ptr)
    requires LeafHung(mem, path, x, b, y, mem') && z in path && Linked(mem, root, path, at, z)
    requires path[x] + [b] !in at && forall w :: w in path ==> w in mem
    ensures Linked(mem', root, path[y := path[x] + [b]], at[path[x] + [b] := y], z)
  {
    assert z != x ==> forall c :: Child(mem'[z], c) == Child(mem[z], c);
    assert z == x ==> Child(mem'[z], !b) == Child(mem[z], !b);
  }

  lemma LeafLinked(mem: Memory, root: Ptr, path: map<Ptr, seq<bool>>, at: map<seq<bool>, Ptr>,
                   x: Ptr, b: bool, y: Ptr, mem': Memory)
    requires LeafHung(mem, path, x, b, y, mem') && root in path
    ensures Linked(mem', root, path[y := path[x] + [b]], at[path[x] + [b] := y], y)
  {
    assert forall c :: Child(mem'[y], c) == NULL;
  }

  /** Hanging a new leaf below a node keeps the shape. */
  lemma ShapedAfterLink(mem: Memory, root: Ptr, path: map<Ptr, seq<bool>>, at: map<seq<bool>, Ptr>, depth: nat,
                        x: Ptr, b: bool, y: Ptr, mem': Memory)
    requires Shaped(mem, root, path, at, depth)
    requires LeafHung(mem, path, x, b, y, mem') && |path[x]| < depth
    ensures var q := path[x] + [b]; q !in at && Shaped(mem', root, path[y := q], at[q := y], depth)
  {
    var q := path[x] + [b];
    ChildOnly(mem, root, path, at, depth, x, b);
    forall z | z in path ensures z in mem {
      LinkedAt(mem, root, path, at, depth, z);
    }
    LeafLinked(mem, root, path, at, x, b, y, mem');
    var path', at' := path[y := q], at[q := y];
    forall z | z in path ensures Linked(mem', root, path', at', z) {
      LinkedAt(mem, root, path, at, depth, z);
      LinkedAfterLink(mem, root, path, at, x, b, y, mem', z);
    }
    ShapedOf(mem', root, path, at, depth, y, q, path', at');
  }

  lemma ShapedOf(mem: Memory, root: Ptr, path: map<Ptr, seq<bool>>, at: map<seq<bool>, Ptr>, depth: nat,
                 y: Ptr, q: seq<bool>, path': map<Ptr, seq<bool>>, at': map<seq<bool>, Ptr>)
    requires path' == path[y := q] && at' == at[q := y]
    requires root in path && y !in path && |q| <= depth
    requires forall p {:trigger at[p]} :: p in at ==> at[p] in path && path[at[p]] == p && |p| <= depth
    requires forall z {:trigger Linked(mem, root, path', at', z)} :: z in path' ==> Linked(mem, root, path', at', z)
    ensures Shaped(mem, root, path', at', depth)
  {
    hide Linked;
  }

  /** Changing a node's value keeps the shape. */
  lemma ShapedAfterStore(mem: Memory, root: Ptr, path: map<Ptr, seq<bool>>, at: map<seq<bool>, Ptr>, depth: nat,
                         x: Ptr, value: nat)
    requires Shaped(mem, root, path, at, depth) && x in path && x in mem
    ensures Shaped(mem[x := mem[x].(value := value)], root, path, at, depth)
  {
    var mem' := mem[x := mem[x].(value := value)];
    forall z | z in path ensures Linked(mem', root, path, at, z) {
      LinkedAt(mem, root, path, at, depth, z);
      assert forall b :: Child(mem'[z], b) == Child(mem[z], b);
    }
  }

  /** Taking a leaf off its parent keeps the shape. */
  lemma ShapedAfterUnlink(mem: Memory, root: Ptr, path: map<Ptr, seq<bool>>, at: map<seq<bool>, Ptr>, depth: nat,
                          y: Ptr, mem': Memory)
    requires Shaped(mem, root, path, at, depth) && y in path && y != root
    requires y in mem && mem[y].left == NULL == mem[y].right
    requires mem[y].parent in mem && path[y] != []
    requires var x, b := mem[y].parent, path[y][|path[y]| - 1];
             y in mem' && mem' == mem[x := WithChild(mem[x], b, NULL)][y := mem'[y]]
    ensures Shaped(mem', root, path - {y}, at - {path[y]}, depth)
  {
    var path', at' := path - {y}, at - {path[y]};
    var x := mem[y].parent;
    LinkedAt(mem, root, path, at, depth, y);
    LinkedAt(mem, root, path, at, depth, x);
    forall z | z in path' ensures Linked(mem', root, path', at', z) {
      LinkedAt(mem, root, path, at, depth, z);
      if z != root {
        LinkedAt(mem, root, path, at, depth, mem[z].parent);
      }
    }
  }

  lemma ParentPath(mem: Memory, root: Ptr, path: map<Ptr, seq<bool>>, at: map<seq<bool>, Ptr>, depth: nat, y: Ptr)
    requires Shaped(mem, root, path, at, depth) && y in path && y != root
    ensures y in mem && path[y] != [] && mem[y].parent in path && path[mem[y].parent] == path[y][..|path[y]| - 1]
  {
    LinkedAt(mem, root, path, at, depth, y);
    LinkedAt(mem, root, path, at, depth, mem[y].parent);
  }

  /** Below a childless node there is none. */
  lemma NoneBelow(mem: Memory, root: Ptr, path: map<Ptr, seq<bool>>, at: map<seq<bool>, Ptr>, depth: nat, x: Ptr)
    requires Shaped(mem, root, path, at, depth) && x in path && x in mem && mem[x].left == NULL == mem[x].right
    ensures forall r :: r in at && path[x] <= r ==> r == path[x]
  {
    forall r | r in at && path[x] <= r ensures r == path[x] {
      var d := |path[x]|;
      if d < |r| {
        PrefixClosed(mem, root, path, at, depth, r, d + 1);
        assert r[..d + 1] == path[x] + [r[d]];
        ChildOnly(mem, root, path, at, depth, x, r[d]);
      }
    }
  }

  /** Below a node with a child there is one that is longer. */
  lemma SomeBelow(mem: Memory, root: Ptr, path: map<Ptr, seq<bool>>, at: map<seq<bool>, Ptr>, depth: nat, x: Ptr)
      returns (r: seq<bool>)
    requires Shaped(mem, root, path, at, depth) && x in path && x in mem
    requires mem[x].left != NULL || mem[x].right != NULL
    ensures r in at && path[x] <= r && |r| == |path[x]| + 1
  {
    LinkedAt(mem, root, path, at, depth, x);
    var b := mem[x].right != NULL;
    var y := Child(mem[x], b);
    LinkedAt(mem, root, path, at, depth, y);
    r := path[y];
  }

  /** A leaf hangs on the side its last bit says, and its parent stays in the tree without it. */
  lemma LeafSide(mem: Memory, root: Ptr, path: map<Ptr, seq<bool>>, at: map<seq<bool>, Ptr>, depth: nat, y: Ptr)
    requires Shaped(mem, root, path, at, depth) && y in path && y != root
    ensures y in mem && path[y] != [] && mem[y].parent in path && mem[y].parent in mem && mem[y].parent != y
    ensures mem[mem[y].parent].right == y <==> path[y][|path[y]| - 1]
    ensures path[y] in at && at[path[y]] == y
  {
    LinkedAt(mem, root, path, at, depth, y);
    var x := mem[y].parent;
    LinkedAt(mem, root, path, at, depth, x);
    assert Child(mem[x], true) == mem[x].right && Child(mem[x], false) == mem[x].left;
  }

  /** Unlinking a leaf takes its prefix out of the map. */
  lemma StoresAfterUnlink(mem: Memory, at: map<seq<bool>, Ptr>,
                          contents: map<seq<bool>, nat>, q: seq<bool>, mem': Memory)
    requires Stores(mem, at, contents)
    requires forall p :: p in at && at[p] in mem ==> at[p] in mem' && mem'[at[p]].value == mem[at[p]].value
    ensures Stores(mem', at - {q}, contents - {q})
  {
  }

  /** Pushing a node on the free list. */
  lemma FreeListPush(mem: Memory, p: Ptr, spare: set<Ptr>, y: Ptr, mem': Memory)
    requires FreeList(mem, p, spare) && y !in spare && y != NULL && y in mem' && mem'[y].right == p
    requires forall x :: x in spare && x in mem ==> x in mem' && mem'[x] == mem[x]
    ensures FreeList(mem', y, spare + {y})
  {
    FreeListFrame(mem, p, spare, mem');
    assert spare + {y} - {y} == spare;
  }

  /** The nodes that the rest of a page and so many pages have room for. */
  function FreshNodes(size: nat, pages: nat): nat {
    size / NODE_SIZE + pages * (PAGE_SIZE / NODE_SIZE)
  }

  lemma FreshFacts(size: nat, pages: nat)
    ensures FreshNodes(size, pages) == 0 <==> size < NODE_SIZE && pages == 0
    ensures size < NODE_SIZE && pages > 0 ==> FreshNodes(PAGE_SIZE, pages - 1) == FreshNodes(size, pages)
    ensures size >= NODE_SIZE ==> FreshNodes(size - NODE_SIZE, pages) == FreshNodes(size, pages) - 1
  {
  }

  /** Every node carved so far is in the tree, on the free list or taken, and only one of these. */
  ghost predicate Parted(mem: Memory, path: map<Ptr, seq<bool>>, spare: set<Ptr>, taken: set<Ptr>, start: Ptr) {
    && mem.Keys == path.Keys + spare + taken
    && path.Keys !! spare && path.Keys !! taken && spare !! taken
    && (forall x :: x in mem ==> 0 < x < start)
  }

  class Tree {
    const keyLength: nat               // 32 or 128
    var mem: Memory                    // every node carved so far, at its address
    var root: Ptr
    var free: Ptr                      // recycled nodes, linked through `right`
    var start: Ptr                     // the rest of the current page
    var size: nat
    var pages: nat                     // pages the pool can still provide
    ghost var contents: map<seq<bool>, nat>  // the prefix map the tree stands for
    ghost var path: map<Ptr, seq<bool>>      // the nodes in the tree, with the bits that lead to them
    ghost var at: map<seq<bool>, Ptr>        // the inverse of `path`
    ghost var spare: set<Ptr>                // the nodes on the free list

    /**
      The tree is a binary trie that stores `contents`; the nodes of the tree and those on the
      free list are disjoint and together are all nodes ever carved.
     */
    ghost predicate Valid()
      reads this
    {
      ValidBut({})
    }

    /** The same, with the nodes in `taken` neither in the tree nor on the free list. */
    ghost predicate ValidBut(taken: set<Ptr>)
      reads this
    {
      && Shaped(mem, root, path, at, keyLength)
      && FreeList(mem, free, spare)
      && Stores(mem, at, contents)
      && Parted(mem, path, spare, taken, start)
    }

    /** ngx_radix_tree_create without preallocation; `pages` is what the pool can provide. */
    constructor (keyLength: nat, base: Ptr, pages: nat)
      requires base > 0 && pages > 0
      ensures Valid() && contents == map[] && this.keyLength == keyLength
      ensures !RootHasChildren() && Available() == pages * (PAGE_SIZE / NODE_SIZE) - 1
    {
      this.keyLength := keyLength;
      root := base;
      mem := map[base := Node(NULL, NULL, NULL, NO_VALUE)];
      free := NULL;
      start := base + NODE_SIZE;
      size := PAGE_SIZE - NODE_SIZE;
      this.pages := pages - 1;
      path := map[base := []];
      at := map[[] := base];
      spare := {};
      contents := map[];
      new;
      assert Linked(mem, root, path, at, root);
      assert Shaped(mem, root, path, at, keyLength);
      assert FreeList(mem, free, spare);
    }

    /** How many nodes can still be had: recycled ones, the rest of the page, and the pages that are left. */
    ghost function Available(): nat
      reads this`spare, this`size, this`pages
    {
      |spare| + FreshNodes(size, pages)
    }

    lemma AllLinked()
      requires Valid()
      ensures spare == {} <==> free == NULL
      ensures forall x :: x in path ==> x in mem
      ensures root in path
    {
      forall x | x in path ensures x in mem {
        LinkedAt(mem, root, path, at, keyLength, x);
      }
    }

    /** The next node of the page. */
    method Carve() returns (p: Ptr)
      requires Valid() && size >= NODE_SIZE
      modifies this`mem, this`start, this`size
      ensures ValidBut({p}) && p != NULL && p !in path && FreshNodes(size, pages) == FreshNodes(old(size), pages) - 1
      ensures forall x :: x in path ==> x in mem && x in old(mem) && mem[x] == old(mem[x])
    {
      hide FreshNodes;
      FreshFacts(size, pages);
      AllLinked();
      p := start;
      assert p > root;
      ShapedFrame(mem, root, path, at, keyLength, mem[p := Node(NULL, NULL, NULL, NO_VALUE)]);
      FreeListFrame(mem, free, spare, mem[p := Node(NULL, NULL, NULL, NO_VALUE)]);
      start, size := start + NODE_SIZE, size - NODE_SIZE;
      mem := mem[p := Node(NULL, NULL, NULL, NO_VALUE)];
    }

    /** The head of the free list. */
    method TakeSpare() returns (p: Ptr)
      requires Valid() && free != NULL
      modifies this`free, this`spare
      ensures ValidBut({p}) && p != NULL && p !in path && |spare| == |old(spare)| - 1
    {
      hide Shaped, Stores;
      p := free;
      free, spare := mem[free].right, spare - {p};
    }

    /** A new page, when the old one has no room. */
    method NewPage()
      requires Valid() && size < NODE_SIZE && pages > 0
      modifies this`start, this`size, this`pages
      ensures Valid() && size >= NODE_SIZE && FreshNodes(size, pages) == FreshNodes(old(size), old(pages))
    {
      hide FreshNodes, Shaped, Stores, FreeList;
      FreshFacts(size, pages);
      start, size, pages := start + size, PAGE_SIZE, pages - 1;
    }

    /** ngx_radix_alloc: a recycled node if there is one, otherwise the next one of the page. */
    method Alloc() returns (p: Ptr)
      requires Valid()
      modifies this`mem, this`free, this`start, this`size, this`pages, this`spare
      ensures p == NULL <==> old(spare == {} && size < NODE_SIZE && pages == 0)
      ensures p == NULL <==> old(Available()) == 0
      ensures p == NULL ==> unchanged(this)
      ensures p != NULL ==> ValidBut({p}) && p !in path && Available() == old(Available()) - 1
      ensures forall x :: x in path ==> x in mem && x in old(mem) && mem[x] == old(mem[x])
    {
      hide FreshNodes, ValidBut;
      FreshFacts(size, pages);
      AllLinked();
      if free != NULL {
        p := TakeSpare();
        return;
      }
      if size < NODE_SIZE {
        if pages == 0 {
          return NULL;
        }
        NewPage();
      }
      p := Carve();
    }

    /** Memory once `next` hangs below `node` for bit b. */
    ghost function Hung(node: Ptr, b: bool, next: Ptr): Memory
      requires node in mem
      reads this
    {
      mem[next := Node(NULL, NULL, node, NO_VALUE)][node := WithChild(mem[node], b, next)]
    }

    lemma HangFacts(node: Ptr, b: bool, next: Ptr)
      requires ValidBut({next}) && node in path && node in mem
      requires |path[node]| < keyLength && Child(mem[node], b) == NULL
      ensures next !in path && next !in spare && next in mem && next != node
      ensures var q := path[node] + [b];
        q !in at && Shaped(Hung(node, b, next), root, path[next := q], at[q := next], keyLength)
      ensures FreeList(Hung(node, b, next), free, spare)
    {
      hide Shaped, FreeList, Stores;
      ShapedAfterLink(mem, root, path, at, keyLength, node, b, next, Hung(node, b, next));
      FreeListFrame(mem, free, spare, Hung(node, b, next));
    }

    lemma HangStores(node: Ptr, b: bool, next: Ptr)
      requires ValidBut({next}) && node in path && node in mem && next !in path
      requires path[node] + [b] !in at
      ensures Stores(Hung(node, b, next), at[path[node] + [b] := next], contents)
    {
      hide FreeList;
    }

    /** Hangs a node that was taken from the allocator below `node`, for bit `b`. */
    method Hang(node: Ptr, b: bool, next: Ptr)
      requires ValidBut({next}) && node in path && node in mem
      requires |path[node]| < keyLength && Child(mem[node], b) == NULL
      modifies this`mem, this`path, this`at
      ensures Valid() && next in mem && mem[next] == Node(NULL, NULL, node, NO_VALUE)
      ensures path == old(path)[next := old(path[node]) + [b]]
      ensures at == old(at)[old(path[node]) + [b] := next]
    {
      hide Shaped, FreeList, Stores;
      HangFacts(node, b, next);
      HangStores(node, b, next);
      var m := mem[next := Node(NULL, NULL, node, NO_VALUE)];
      if b {
        m := m[node := m[node].(right := next)];
      } else {
        m := m[node := m[node].(left := next)];
      }
      ghost var q := path[node] + [b];
      mem, path, at := m, path[next := q], at[q := next];
    }

    /** The body of the second insertion loop: a new valueless child of `node` for bit `b`. */
    method Extend(node: Ptr, b: bool) returns (next: Ptr)
      requires Valid() && node in path && node in mem
      requires |path[node]| < keyLength && Child(mem[node], b) == NULL
      modifies this`mem, this`free, this`start, this`size, this`pages, this`spare, this`path, this`at
      ensures Valid()
      ensures next == NULL <==> old(Available()) == 0
      ensures next == NULL ==> unchanged(this)
      ensures next != NULL ==>
        && Available() == old(Available()) - 1
        && next !in old(path) && next in mem && mem[next] == Node(NULL, NULL, node, NO_VALUE)
        && path == old(path)[next := old(path[node]) + [b]]
        && at == old(at)[old(path[node]) + [b] := next]
    {
      hide ValidBut, FreshNodes;
      next := Alloc();
      if next != NULL {
        Hang(node, b, next);
      }
    }

    /** Writes a node's value. */
    method SetValue(node: Ptr, value: nat)
      requires Valid() && node in path && node in mem
      modifies this`mem, this`contents
      ensures Valid()
      ensures contents == if value == NO_VALUE then old(contents) - {path[node]}
                          else old(contents)[path[node] := value]
      ensures mem == old(mem)[node := old(mem[node]).(value := value)] && path[node] in at
    {
      LinkedAt(mem, root, path, at, keyLength, node);
      ShapedAfterStore(mem, root, path, at, keyLength, node, value);
      FreeListFrame(mem, free, spare, mem[node := mem[node].(value := value)]);
      mem := mem[node := mem[node].(value := value)];
      contents := if value == NO_VALUE then contents - {path[node]} else contents[path[node] := value];
    }

    /** What an insertion does to the map, and when it says BUSY. */
    ghost predicate Inserted(prefix: seq<bool>, value: nat, before: map<seq<bool>, nat>, rc: Rc)
      reads this
    {
      && (rc == BUSY <==> prefix in before)
      && (rc != OK ==> contents == before)
      && (rc == OK ==>
            && prefix in at
            && contents == if value == NO_VALUE then before else before[prefix := value])
    }

    lemma InsertedIsThere(prefix: seq<bool>, value: nat, before: map<seq<bool>, nat>, rc: Rc)
      requires Valid() && Inserted(prefix, value, before, rc) && rc != ERROR
      ensures prefix in at
    {
    }

    /** An insertion adds nodes on the way to its prefix only. */
    ghost predicate Grown(p: seq<bool>, at0: map<seq<bool>, Ptr>)
      reads this`at
    {
      GrownFrom(p, at0, at)
    }

    /** The end of an insertion that found its node in the tree. */
    method Store(node: Ptr, value: nat) returns (rc: Rc)
      requires Valid() && node in path && node in mem
      modifies this`mem, this`contents
      ensures Valid()
      ensures Inserted(path[node], value, old(contents), rc) && rc != ERROR
    {
      LinkedAt(mem, root, path, at, keyLength, node);
      if mem[node].value != NO_VALUE {
        return BUSY;
      }
      SetValue(node, value);
      rc := OK;
    }

    lemma AtPrefix(node: Ptr, key: seq<bool>, mask: seq<bool>, d: nat)
      requires Valid() && |key| == |mask| && node in path && d == LeadingOnes(mask) <= |key| && path[node] == key[..d]
      ensures path[node] == Prefix(key, mask) && Missing(Prefix(key, mask), at) == 0
    {
      NodeFacts(node);
    }

    lemma GrownSame(p: seq<bool>)
      ensures Grown(p, at)
    {
    }

    lemma GrownNext(p: seq<bool>, at0: map<seq<bool>, Ptr>, at1: map<seq<bool>, Ptr>, q: seq<bool>, next: Ptr)
      requires GrownFrom(p, at0, at1)
      requires next == NULL ==> at == at1
      requires next != NULL ==> q <= p && q !in at1 && at == at1[q := next]
      ensures Grown(p, at0)
    {
    }

    /** Where the first insertion loop stops: at the prefix's node, or where its path leaves the tree. */
    ghost predicate Reached(node: Ptr, next: Ptr, bits: seq<bool>, ones: nat, d: nat)
      reads this
    {
      && d <= ones <= |bits| && node in path && node in mem && path[node] == bits[..d]
      && (next != NULL ==> next == node)
      && (next == NULL ==> d < ones && Child(mem[node], bits[d]) == NULL)
    }

    lemma StartGrowing(node: Ptr, bits: seq<bool>, ones: nat, d: nat)
      requires Valid() && |bits| == keyLength && Reached(node, NULL, bits, ones, d)
      ensures Growing(node, bits, ones, d)
      ensures Missing(bits[..ones], at) == ones - d
    {
      NothingBelow(mem, root, path, at, node, bits);
      LinkedAt(mem, root, path, at, keyLength, node);
      MissingFrom(bits, at, d, ones);
    }

    /** While the missing nodes grow: the prefix is not stored yet. */
    ghost predicate Growing(node: Ptr, bits: seq<bool>, ones: nat, d: nat)
      reads this
    {
      && d <= ones <= |bits| && node in path && node in mem && path[node] == bits[..d]
      && bits[..ones] !in contents
      && (d < ones ==> Child(mem[node], bits[d]) == NULL)
    }

    lemma NotThere(node: Ptr, bits: seq<bool>, d: nat)
      requires Valid() && node in path && d < |bits| && path[node] == bits[..d] && node in mem
      requires Child(mem[node], bits[d]) == NULL
      ensures bits[..d + 1] !in at
    {
      ChildOnly(mem, root, path, at, keyLength, node, bits[d]);
      assert bits[..d + 1] == bits[..d] + [bits[d]];
    }

    /** One turn of the second insertion loop: the node for one more bit of the key. */
    method GrowOne(node: Ptr, b: bool, ghost bits: seq<bool>, ghost ones: nat, ghost d: nat) returns (next: Ptr)
      requires Valid() && |bits| == keyLength && Growing(node, bits, ones, d) && d < ones && b == bits[d]
      modifies this`mem, this`free, this`start, this`size, this`pages, this`spare, this`path, this`at
      ensures Valid() && contents == old(contents) && root == old(root)
      ensures next == NULL <==> old(Available()) == 0
      ensures next != NULL ==> Growing(next, bits, ones, d + 1) && Available() == old(Available()) - 1
      ensures next == NULL ==> Available() == 0 && at == old(at)
      ensures next != NULL ==> bits[..d + 1] !in old(at) && at == old(at)[bits[..d + 1] := next]
    {
      hide ValidBut, Available;
      NotThere(node, bits, d);
      next := Extend(node, b);
      assert bits[..d + 1] == bits[..d] + [bits[d]];
    }

    /** The first insertion loop: follows the key while the mask lasts and the tree has a node. */
    method Descend32(key: Uint32, mask: Uint32) returns (node: Ptr, next: Ptr, bit: nat, ghost d: nat)
      requires Valid() && keyLength == 32
      ensures Reached(node, next, Bits32(key), LeadingOnes(Bits32(mask)), d)
      ensures next != NULL ==> d == LeadingOnes(Bits32(mask))
      ensures bit == if d < 32 then Pow2(31 - d) else 0
    {
      hide Test, Bits32, Pow2;
      bit, d := 0x8000_0000, 0;
      TopBit();
      node, next := root, root;
      LinkedAt(mem, root, path, at, keyLength, root);
      StepBit32(mask, 0, bit);
      OnesAt(Bits32(mask), 0, 0);
      while Test(mask, bit)
        invariant Test(mask, bit) <==> d < LeadingOnes(Bits32(mask))
        invariant Reached(node, next, Bits32(key), LeadingOnes(Bits32(mask)), d) && next != NULL
        invariant bit == if d < 32 then Pow2(31 - d) else 0
        decreases 32 - d
      {
        if Test(key, bit) {
          next := mem[node].right;
        } else {
          next := mem[node].left;
        }
        StepBit32(key, d, bit);
        StepDown(mem, root, path, at, keyLength, node, Bits32(key), d);
        if next == NULL {
          break;
        }
        bit := bit / 2;
        node := next;
        d := d + 1;
        StepBit32(mask, d, bit);
        OnesAt(Bits32(mask), d, 0);
      }
    }

    /** The second insertion loop: grows the missing nodes and stores the value in the last one. */
    method Grow32(key: Uint32, mask: Uint32, value: nat, node0: Ptr, bit0: nat, ghost d0: nat) returns (rc: Rc)
      requires Valid() && keyLength == 32
      requires Reached(node0, NULL, Bits32(key), LeadingOnes(Bits32(mask)), d0)
      requires bit0 == if d0 < 32 then Pow2(31 - d0) else 0
      modifies this
      ensures Valid() && root == old(root)
      ensures Inserted(Prefix(Bits32(key), Bits32(mask)), value, old(contents), rc) && rc != BUSY
      ensures rc == ERROR <==> old(Missing(Prefix(Bits32(key), Bits32(mask)), at) > Available())
      ensures Available() == (if rc == OK then old(Available() - Missing(Prefix(Bits32(key), Bits32(mask)), at))
        else if rc == ERROR then 0 else old(Available()))
      ensures Grown(Prefix(Bits32(key), Bits32(mask)), old(at))
    {
      hide ValidBut, Available, GrownFrom, Missing, Test, Bits32, Pow2;
      ghost var bits, ones := Bits32(key), LeadingOnes(Bits32(mask));
      GrownSame(bits[..ones]);
      var node, bit := node0, bit0;
      ghost var d := d0;
      StartGrowing(node, bits, ones, d);
      StepBit32(mask, d, bit);
      OnesAt(Bits32(mask), d, 0);
      while Test(mask, bit)
        invariant Test(mask, bit) <==> d < LeadingOnes(Bits32(mask))
        invariant Valid() && root == old(root) && contents == old(contents)
        invariant Growing(node, bits, ones, d)
        invariant Available() + d == old(Available()) + d0 && Grown(bits[..ones], old(at))
        invariant bit == if d < 32 then Pow2(31 - d) else 0
        decreases 32 - d
      {
        StepBit32(key, d, bit);
        ghost var before := at;
        var next := GrowOne(node, Test(key, bit), bits, ones, d);
        GrownNext(bits[..ones], old(at), before, bits[..d + 1], next);
        if next == NULL {
          return ERROR;
        }
        bit := bit / 2;
        node := next;
        d := d + 1;
        StepBit32(mask, d, bit);
        OnesAt(Bits32(mask), d, 0);
      }
      assert path[node] == Prefix(bits, Bits32(mask));
      SetValue(node, value);
      rc := OK;
    }

    /**
      ngx_radix32tree_insert: BUSY exactly when the prefix is stored already; otherwise the prefix
      is added, unless memory runs out, and then the map is what it was.
     */
    method Insert32(key: Uint32, mask: Uint32, value: nat) returns (rc: Rc)
      requires Valid() && keyLength == 32
      modifies this
      ensures Valid() && root == old(root)
      ensures Inserted(Prefix(Bits32(key), Bits32(mask)), value, old(contents), rc)
      ensures rc == ERROR <==> old(Missing(Prefix(Bits32(key), Bits32(mask)), at) > Available())
      ensures Available() == (if rc == OK then old(Available() - Missing(Prefix(Bits32(key), Bits32(mask)), at))
        else if rc == ERROR then 0 else old(Available()))
      ensures Grown(Prefix(Bits32(key), Bits32(mask)), old(at))
    {
      hide ValidBut, Available, Missing, Inserted, Grown, LeadingOnes, Test, Bits32, Pow2;
      ghost var d;
      var node, next, bit;
      node, next, bit, d := Descend32(key, mask);
      if next != NULL {
        AtPrefix(node, Bits32(key), Bits32(mask), d);
        GrownSame(Prefix(Bits32(key), Bits32(mask)));
        rc := Store(node, value);
        return;
      }
      rc := Grow32(key, mask, value, node, bit, d);
    }

    /** The first loop of ngx_radix128tree_insert. */
    method Descend128(key: seq<Byte>, mask: seq<Byte>)
        returns (node: Ptr, next: Ptr, i: nat, bit: nat, ghost d: nat)
      requires Valid() && keyLength == 128 && |key| == 16 && |mask| == 16
      ensures Reached(node, next, Bits128(key), LeadingOnes(Bits128(mask)), d)
      ensures next != NULL ==> d == LeadingOnes(Bits128(mask))
      ensures At128(d, i, bit)
    {
      hide Test, Bits128, Pow2;
      i, bit, d := 0, 0x80, 0;
      TopBit();
      node, next := root, root;
      LinkedAt(mem, root, path, at, keyLength, root);
      StepBit128(mask, 0, i, bit);
      OnesAt(Bits128(mask), 0, 0);
      while Test(mask[i], bit)
        invariant At128(d, i, bit) && i < 16 && d < 128
        invariant Test(mask[i], bit) <==> d < LeadingOnes(Bits128(mask))
        invariant Reached(node, next, Bits128(key), LeadingOnes(Bits128(mask)), d) && next != NULL
        decreases 128 - d
      {
        if Test(key[i], bit) {
          next := mem[node].right;
        } else {
          next := mem[node].left;
        }
        StepBit128(key, d, i, bit);
        StepDown(mem, root, path, at, keyLength, node, Bits128(key), d);
        if next == NULL {
          break;
        }
        bit := bit / 2;
        node := next;
        d := d + 1;
        OnesAt(Bits128(mask), d, 0);
        if bit == 0 {
          i := i + 1;
          if i == 16 {
            break;
          }
          bit := 0x80;
        }
        StepBit128(mask, d, i, bit);
      }
    }

    /** The second loop of ngx_radix128tree_insert, and the final store. */
    method Grow128(key: seq<Byte>, mask: seq<Byte>, value: nat, node0: Ptr, i0: nat, bit0: nat, ghost d0: nat)
        returns (rc: Rc)
      requires Valid() && keyLength == 128 && |key| == 16 && |mask| == 16
      requires Reached(node0, NULL, Bits128(key), LeadingOnes(Bits128(mask)), d0)
      requires At128(d0, i0, bit0) && d0 < 128
      modifies this
      ensures Valid() && root == old(root)
      ensures Inserted(Prefix(Bits128(key), Bits128(mask)), value, old(contents), rc) && rc != BUSY
      ensures rc == ERROR <==> old(Missing(Prefix(Bits128(key), Bits128(mask)), at) > Available())
      ensures Available() == (if rc == OK then old(Available() - Missing(Prefix(Bits128(key), Bits128(mask)), at))
        else if rc == ERROR then 0 else old(Available()))
      ensures Grown(Prefix(Bits128(key), Bits128(mask)), old(at))
    {
      hide ValidBut, Available, GrownFrom, Missing, Test, Bits128, Pow2;
      ghost var bits, ones := Bits128(key), LeadingOnes(Bits128(mask));
      GrownSame(bits[..ones]);
      var node, i: nat, bit: nat := node0, i0, bit0;
      ghost var d := d0;
      StartGrowing(node, bits, ones, d);
      StepBit128(mask, d, i, bit);
      OnesAt(Bits128(mask), d, 0);
      while Test(mask[i], bit)
        invariant At128(d, i, bit) && i < 16 && d < 128
        invariant Test(mask[i], bit) <==> d < LeadingOnes(Bits128(mask))
        invariant Valid() && root == old(root) && contents == old(contents)
        invariant Growing(node, bits, ones, d)
        invariant Available() + d == old(Available()) + d0 && Grown(bits[..ones], old(at))
        decreases 128 - d
      {
        StepBit128(key, d, i, bit);
        ghost var before := at;
        var next := GrowOne(node, Test(key[i], bit), bits, ones, d);
        GrownNext(bits[..ones], old(at), before, bits[..d + 1], next);
        if next == NULL {
          return ERROR;
        }
        bit := bit / 2;
        node := next;
        d := d + 1;
        OnesAt(Bits128(mask), d, 0);
        if bit == 0 {
          i := i + 1;
          if i == 16 {
            break;
          }
          bit := 0x80;
        }
        StepBit128(mask, d, i, bit);
      }
      assert path[node] == Prefix(bits, Bits128(mask));
      SetValue(node, value);
      rc := OK;
    }

    /** ngx_radix128tree_insert: the same promise as for 32-bit keys. */
    method Insert128(key: seq<Byte>, mask: seq<Byte>, value: nat) returns (rc: Rc)
      requires Valid() && keyLength == 128 && |key| == 16 && |mask| == 16
      modifies this
      ensures Valid() && root == old(root)
      ensures Inserted(Prefix(Bits128(key), Bits128(mask)), value, old(contents), rc)
      ensures rc == ERROR <==> old(Missing(Prefix(Bits128(key), Bits128(mask)), at) > Available())
      ensures Available() == (if rc == OK then old(Available() - Missing(Prefix(Bits128(key), Bits128(mask)), at))
        else if rc == ERROR then 0 else old(Available()))
      ensures Grown(Prefix(Bits128(key), Bits128(mask)), old(at))
    {
      hide ValidBut, Available, Missing, Inserted, Grown, LeadingOnes, Test, Bits128, Pow2;
      ghost var d;
      var node, next, i, bit;
      node, next, i, bit, d := Descend128(key, mask);
      if next != NULL {
        AtPrefix(node, Bits128(key), Bits128(mask), d);
        GrownSame(Prefix(Bits128(key), Bits128(mask)));
        rc := Store(node, value);
        return;
      }
      rc := Grow128(key, mask, value, node, i, bit, d);
    }

    /** Memory once a leaf is off its parent and on the free list. */
    ghost function Unlinked(node: Ptr): Memory
      requires node in mem && mem[node].parent in mem && node in path && path[node] != []
      reads this
    {
      var x, b := mem[node].parent, path[node][|path[node]| - 1];
      var m := mem[x := WithChild(mem[x], b, NULL)];
      m[node := m[node].(right := free)]
    }

    lemma UnlinkFacts(node: Ptr)
      requires Valid() && node in path && node in mem && node != root
      requires mem[node].right == NULL == mem[node].left
      ensures path[node] != [] && mem[node].parent in path && mem[node].parent in mem && mem[node].parent != node
      ensures mem[mem[node].parent].right == node <==> path[node][|path[node]| - 1]
      ensures path[node] in at && at[path[node]] == node && node !in spare
      ensures path[mem[node].parent] == path[node][..|path[node]| - 1] && Unlinked(node).Keys == mem.Keys
      ensures Shaped(Unlinked(node), root, path - {node}, at - {path[node]}, keyLength)
      ensures FreeList(Unlinked(node), node, spare + {node})
      ensures Stores(Unlinked(node), at - {path[node]}, contents - {path[node]})
      ensures Parted(Unlinked(node), path - {node}, spare + {node}, {}, start)
    {
      hide Shaped, FreeList, Stores;
      LeafSide(mem, root, path, at, keyLength, node);
      ParentPath(mem, root, path, at, keyLength, node);
      ShapedAfterUnlink(mem, root, path, at, keyLength, node, Unlinked(node));
      FreeListPush(mem, free, spare, node, Unlinked(node));
      StoresAfterUnlink(mem, at, contents, path[node], Unlinked(node));
    }

    lemma UnlinkCounts(node: Ptr)
      requires node in path && node !in spare
      ensures |path - {node}| == |path| - 1 && |spare + {node}| == |spare| + 1
    {
      assert path == (path - {node})[node := path[node]];
    }

    /** The body of the pruning loop: unlinks a leaf and puts it on the free list. */
    method Unlink(node: Ptr)
      requires Valid() && node in path && node in mem && node != root
      requires mem[node].right == NULL == mem[node].left
      modifies this`mem, this`free, this`path, this`at, this`spare, this`contents
      ensures Valid() && mem.Keys == old(mem.Keys)
      ensures path == old(path) - {node} && at == old(at) - {old(path[node])} && spare == old(spare) + {node}
      ensures contents == old(contents) - {old(path[node])}
    {
      hide Shaped, FreeList, Stores, Parted, Unlinked;
      UnlinkFacts(node);
      var m := Cut(node);
      ghost var q := path[node];
      ghost var path1, at1, contents1 := path - {node}, at - {q}, contents - {q};
      mem, free, spare := m, node, spare + {node};
      path, at, contents := path1, at1, contents1;
    }

    /** The same, with what it means for the leaf's parent and for the nodes that can be had. */
    method TakeOff(node: Ptr)
      requires Valid() && node in path && node in mem && node != root
      requires mem[node].right == NULL == mem[node].left
      modifies this`mem, this`free, this`path, this`at, this`spare, this`contents
      ensures Valid() && mem.Keys == old(mem.Keys)
      ensures path == old(path) - {node} && at == old(at) - {old(path[node])} && spare == old(spare) + {node}
      ensures contents == old(contents) - {old(path[node])}
      ensures old(mem[node].parent) in path && old(mem[node].parent) in mem
      ensures old(path[node]) != [] && path[old(mem[node].parent)] == old(path[node])[..|old(path[node])| - 1]
      ensures Available() == old(Available()) + 1 && |path| == |old(path)| - 1
    {
      hide ValidBut, Unlinked, FreshNodes;
      UnlinkFacts(node);
      UnlinkCounts(node);
      Unlink(node);
    }

    /** The memory with the leaf off its parent and before the free list. */
    method Cut(node: Ptr) returns (m: Memory)
      requires node in mem && node in path && path[node] != []
      requires mem[node].parent in mem && mem[node].parent != node
      requires mem[mem[node].parent].right == node <==> path[node][|path[node]| - 1]
      ensures m == Unlinked(node)
    {
      var parent := mem[node].parent;
      m := mem;
      if mem[parent].right == node {
        m := m[parent := m[parent].(right := NULL)];
      } else {
        m := m[parent := m[parent].(left := NULL)];
      }
      m := m[node := m[node].(right := free)];
    }

    /** The pruning loop: removes a leaf and then every ancestor it leaves childless and valueless. */
    method Prune(node0: Ptr)
      requires Valid() && node0 in path && node0 in mem && node0 != root
      requires mem[node0].right == NULL == mem[node0].left
      modifies this
      ensures Valid() && root == old(root) && mem.Keys == old(mem.Keys)
      ensures contents == old(contents) - {old(path[node0])}
      ensures spare >= old(spare) + {node0}
      ensures Pruned(old(path[node0]), old(at))
      ensures Available() + |path| == old(Available() + |path|)
    {
      hide ValidBut, Thinned, Available;
      var node := node0;
      ghost var p := path[node];
      ghost var c := contents - {p};
      NodeFacts(node);
      ThinnedStart(p, at, c);
      assert p[..|p|] == p;
      while true
        invariant Valid() && root == old(root) && mem.Keys == old(mem.Keys) && spare >= old(spare)
        invariant node in path && node in mem && node != root && mem[node].right == NULL == mem[node].left
        invariant if node == node0 then contents == old(contents) && path[node] == p
                  else contents == old(contents) - {p} && path[node] !in contents && node0 in spare && node0 !in path
        invariant path[node] <= p && path[node] != [] && path[node] !in c && path[node] in at
        invariant Thinned(p, old(at), at, c, |path[node]|)
        invariant Available() + |path| == old(Available() + |path|)
        decreases |path|
      {
        var parent := mem[node].parent;
        ghost var q := path[node];
        ghost var before := at;
        LeafIsLast(node);
        assert q == p[..|q|];
        ThinnedNext(p, old(at), before, c, |q|);
        TakeOff(node);
        assert path[parent] == p[..|q| - 1];
        assert contents == c;
        node := parent;
        NodeFacts(node);
        if mem[node].right != NULL || mem[node].left != NULL {
          break;
        }
        if mem[node].value != NO_VALUE {
          break;
        }
        if mem[node].parent == NULL {
          break;
        }
      }
      PruningEnds(node, p, old(at));
    }

    /** After a deletion of the leaf at p exactly the nodes are gone that have to go. */
    ghost predicate Pruned(p: seq<bool>, at0: map<seq<bool>, Ptr>)
      reads this
    {
      && (forall q :: q in at ==> q in at0 && at[q] == at0[q])
      && (forall q :: q in at0 ==> (q in at <==> !Goes(q, p, at0, contents)))
    }

    lemma LeafIsLast(node: Ptr)
      requires Valid() && node in path && node in mem && mem[node].left == NULL == mem[node].right
      ensures forall r :: r in at && path[node] <= r ==> r == path[node]
    {
      NoneBelow(mem, root, path, at, keyLength, node);
    }

    lemma PruningEnds(node: Ptr, p: seq<bool>, at0: map<seq<bool>, Ptr>)
      requires Valid() && node in path && node in mem && path[node] <= p
      requires Thinned(p, at0, at, contents, |path[node]|)
      requires mem[node].right != NULL || mem[node].left != NULL || mem[node].value != NO_VALUE || node == root
      ensures Pruned(p, at0)
    {
      hide ValidBut, Goes;
      var n := |path[node]|;
      assert p[..n] == path[node];
      NodeFacts(node);
      RootPath();
      if mem[node].right != NULL || mem[node].left != NULL {
        var r := ChildPath(node);
        assert r in at && p[..n] <= r && !(r <= p);
      } else if mem[node].value != NO_VALUE {
        assert path[node] in at && p[..n] <= path[node] && path[node] in contents;
      }
      forall q | q in at0 ensures q in at <==> !Goes(q, p, at0, contents) {
        ThinnedEnd(p, at0, at, contents, n, q);
      }
    }

    lemma ChildPath(node: Ptr) returns (r: seq<bool>)
      requires Valid() && node in path && node in mem && (mem[node].left != NULL || mem[node].right != NULL)
      ensures r in at && path[node] <= r && |r| == |path[node]| + 1
    {
      r := SomeBelow(mem, root, path, at, keyLength, node);
    }

    lemma NodeFacts(node: Ptr)
      requires Valid() && node in path
      ensures node in mem && (mem[node].parent == NULL <==> node == root) && (path[node] == [] <==> node == root)
      ensures path[node] in contents <==> mem[node].value != NO_VALUE
      ensures path[node] in at && at[path[node]] == node
    {
      LinkedAt(mem, root, path, at, keyLength, node);
      if node != root {
        LinkedAt(mem, root, path, at, keyLength, mem[node].parent);
      }
    }

    /** The walk of a deletion: it has followed the key for d bits, or has left the tree. */
    ghost predicate Walked(node: Ptr, bits: seq<bool>, ones: nat, d: nat)
      reads this
    {
      && ones <= |bits|
      && (node != NULL ==> d <= ones && node in path && node in mem && path[node] == bits[..d])
      && (node == NULL ==> bits[..ones] !in at)
    }

    lemma WalkOn(node: Ptr, bits: seq<bool>, ones: nat, d: nat)
      requires Valid() && |bits| == keyLength && Walked(node, bits, ones, d) && node != NULL && d < ones
      ensures Walked(Child(mem[node], bits[d]), bits, ones, d + 1)
    {
      StepDown(mem, root, path, at, keyLength, node, bits, d);
      if Child(mem[node], bits[d]) == NULL {
        NothingBelow(mem, root, path, at, node, bits);
      }
    }

    /** What a deletion does: exactly the prefix goes, and OK means it was stored or had a bare leaf. */
    ghost predicate Deleted(prefix: seq<bool>, before: map<seq<bool>, nat>, wasLeaf: bool, nodes: set<Ptr>, rc: Rc)
      reads this
    {
      && contents == before - {prefix}
      && mem.Keys == nodes
      && rc == if prefix in before || wasLeaf then OK else ERROR
    }

    /** The tree has a childless node for p; it may be valueless, left by an insertion that failed. */
    ghost predicate Leaf(p: seq<bool>)
      reads this
    {
      p in at && at[p] in mem && mem[at[p]].left == NULL == mem[at[p]].right
    }

    /** Otherwise the tree is its root alone, and a deletion of the empty prefix crashes. */
    ghost predicate RootHasChildren()
      reads this
    {
      root in mem && (mem[root].left != NULL || mem[root].right != NULL)
    }

    /** While any longer prefix is stored, no deletion crashes. */
    lemma StoredBelowRoot(p: seq<bool>)
      requires Valid() && p in contents && p != []
      ensures RootHasChildren()
    {
      RootPath();
      PrefixClosed(mem, root, path, at, keyLength, p, 1);
      assert p[..1] == path[root] + [p[0]];
      ChildOnly(mem, root, path, at, keyLength, root, p[0]);
    }

    /**
      The end of a deletion, once the walk has reached the prefix's node or left the tree.  The
      pruning loop takes a leaf off its parent without asking whether it has one; `crash` says that
      it follows NULL there.
     */
    method Remove(node: Ptr, ghost bits: seq<bool>, ghost ones: nat) returns (rc: Rc, crash: bool)
      requires Valid() && Walked(node, bits, ones, ones)
      modifies this
      ensures Valid() && root == old(root)
      ensures crash <==> ones == 0 && !old(RootHasChildren())
      ensures crash ==> unchanged(this)
      ensures !crash ==> Deleted(bits[..ones], old(contents), old(Leaf(bits[..ones])), old(mem.Keys), rc)
      ensures !crash ==> if old(Leaf(bits[..ones])) then Pruned(bits[..ones], old(at)) else at == old(at)
      ensures Available() + |path| == old(Available() + |path|)
    {
      hide ValidBut, Available;
      crash := false;
      RootPath();
      if node == NULL {
        AbsentIsNotStored(bits[..ones]);
        return ERROR, false;
      }
      NodeFacts(node);
      if mem[node].right != NULL || mem[node].left != NULL {
        if mem[node].value != NO_VALUE {
          SetValue(node, NO_VALUE);
          return OK, false;
        }
        return ERROR, false;
      }
      if mem[node].parent == NULL {
        return ERROR, true;
      }
      Prune(node);
      rc := OK;
    }

    lemma AbsentIsNotStored(p: seq<bool>)
      requires Valid() && p !in at
      ensures p !in contents
    {
    }

    lemma RootPath()
      requires Valid()
      ensures root in path && root in mem && root != NULL && path[root] == [] && [] in at && at[[]] == root
    {
      LinkedAt(mem, root, path, at, keyLength, root);
    }

    /** ngx_radix32tree_delete */
    method Delete32(key: Uint32, mask: Uint32) returns (rc: Rc, crash: bool)
      requires Valid() && keyLength == 32
      modifies this
      ensures Valid() && root == old(root)
      ensures crash <==> LeadingOnes(Bits32(mask)) == 0 && !old(RootHasChildren())
      ensures crash ==> unchanged(this)
      ensures !crash ==>
        var prefix := Prefix(Bits32(key), Bits32(mask));
        && Deleted(prefix, old(contents), old(Leaf(prefix)), old(mem.Keys), rc)
        && if old(Leaf(prefix)) then Pruned(prefix, old(at)) else at == old(at)
      ensures Available() + |path| == old(Available() + |path|)
    {
      hide ValidBut, Test, Bits32, Pow2;
      ghost var bits, ones := Bits32(key), LeadingOnes(Bits32(mask));
      var bit: nat := 0x8000_0000;
      ghost var d := 0;
      var node := root;
      TopBit();
      RootPath();
      StepBit32(mask, 0, bit);
      OnesAt(Bits32(mask), 0, 0);
      while node != NULL && Test(mask, bit)
        modifies {}
        invariant Walked(node, bits, ones, d)
        invariant bit == if d < 32 then Pow2(31 - d) else 0
        invariant d <= ones && (Test(mask, bit) <==> d < ones)
        decreases 32 - d
      {
        StepBit32(key, d, bit);
        WalkOn(node, bits, ones, d);
        if Test(key, bit) {
          node := mem[node].right;
        } else {
          node := mem[node].left;
        }
        bit := bit / 2;
        d := d + 1;
        StepBit32(mask, d, bit);
        OnesAt(Bits32(mask), d, 0);
      }
      rc, crash := Remove(node, bits, ones);
    }

    /** ngx_radix128tree_delete */
    method Delete128(key: seq<Byte>, mask: seq<Byte>) returns (rc: Rc, crash: bool)
      requires Valid() && keyLength == 128 && |key| == 16 && |mask| == 16
      modifies this
      ensures Valid() && root == old(root)
      ensures crash <==> LeadingOnes(Bits128(mask)) == 0 && !old(RootHasChildren())
      ensures crash ==> unchanged(this)
      ensures !crash ==>
        var prefix := Prefix(Bits128(key), Bits128(mask));
        && Deleted(prefix, old(contents), old(Leaf(prefix)), old(mem.Keys), rc)
        && if old(Leaf(prefix)) then Pruned(prefix, old(at)) else at == old(at)
      ensures Available() + |path| == old(Available() + |path|)
    {
      hide ValidBut, Test, Bits128, Pow2;
      ghost var bits, ones := Bits128(key), LeadingOnes(Bits128(mask));
      var i: nat, bit: nat := 0, 0x80;
      ghost var d := 0;
      var node := root;
      TopBit();
      RootPath();
      StepBit128(mask, 0, i, bit);
      OnesAt(Bits128(mask), 0, 0);
      while node != NULL && Test(mask[i], bit)
        modifies {}
        invariant Walked(node, bits, ones, d)
        invariant At128(d, i, bit) && i < 16 && d < 128
        invariant d <= ones && (Test(mask[i], bit) <==> d < ones)
        decreases 128 - d
      {
        StepBit128(key, d, i, bit);
        WalkOn(node, bits, ones, d);
        if Test(key[i], bit) {
          node := mem[node].right;
        } else {
          node := mem[node].left;
        }
        bit := bit / 2;
        d := d + 1;
        OnesAt(Bits128(mask), d, 0);
        if bit == 0 {
          i := i + 1;
          if i == 16 {
            break;
          }
          bit := 0x80;
        }
        StepBit128(mask, d, i, bit);
      }
      rc, crash := Remove(node, bits, ones);
    }

    /** The walk of a lookup: `value` is the longest match among the prefixes passed so far. */
    ghost predicate Looking(node: Ptr, bits: seq<bool>, d: nat, value: int)
      reads this
    {
      && (node != NULL ==>
            && d <= |bits| && node in path && node in mem && path[node] == bits[..d]
            && value == LongestBelow(contents, bits, d))
      && (node == NULL ==> value == LongestMatch(contents, bits))
      && (d > |bits| ==> bits in at)
      && (node == NULL && d <= |bits| ==> bits !in at)
    }

    lemma LookOn(node: Ptr, bits: seq<bool>, d: nat, value: int, right: bool)
      requires Valid() && |bits| == keyLength && Looking(node, bits, d, value) && node != NULL
      requires d < |bits| ==> right == bits[d]
      ensures var value' := if mem[node].value != NO_VALUE then mem[node].value else value;
              Looking(Child(mem[node], right), bits, d + 1, value')
    {
      LinkedAt(mem, root, path, at, keyLength, node);
      if d < |bits| {
        StepDown(mem, root, path, at, keyLength, node, bits, d);
      } else {
        assert bits[..d] == bits;
        if Child(mem[node], right) != NULL {
          LinkedAt(mem, root, path, at, keyLength, Child(mem[node], right));
        }
      }
      if Child(mem[node], right) == NULL {
        NothingBelow(mem, root, path, at, node, bits);
        assert bits[..|bits|] == bits;
        forall i | d + 1 <= i <= |bits| ensures bits[..i] !in contents {
          AbsentIsNotStored(bits[..i]);
        }
        LongestBelowSkips(contents, bits, d + 1, |bits| + 1);
      }
    }

    /** ngx_radix32tree_find: the value of the longest stored prefix of the key. */
    method Find32(key: Uint32) returns (value: int)
      requires Valid() && keyLength == 32
      ensures value == LongestMatch(contents, Bits32(key))
    {
      hide ValidBut, Test, Bits32, Pow2, LongestMatch;
      ghost var bits, d := Bits32(key), 0;
      var bit: nat := 0x8000_0000;
      value := NO_VALUE;
      var node := root;
      TopBit();
      RootPath();
      while node != NULL
        invariant Looking(node, bits, d, value) && d <= 33
        invariant bit == if d < 32 then Pow2(31 - d) else 0
        decreases 33 - d
      {
        StepBit32(key, d, bit);
        LookOn(node, bits, d, value, Test(key, bit));
        if mem[node].value != NO_VALUE {
          value := mem[node].value;
        }
        if Test(key, bit) {
          node := mem[node].right;
        } else {
          node := mem[node].left;
        }
        bit := bit / 2;
        d := d + 1;
      }
    }

    /**
      ngx_radix128tree_find.  `overrun` says whether the source reads the byte after the address,
      which is `beyond`: it does so exactly if the tree has a node for the full address, and the
      answer does not depend on that byte.
     */
    method Find128(key: seq<Byte>, beyond: Byte) returns (value: int, overrun: bool)
      requires Valid() && keyLength == 128 && |key| == 16
      ensures value == LongestMatch(contents, Bits128(key))
      ensures overrun <==> Bits128(key) in at
    {
      hide ValidBut, Test, Bits128, Pow2, LongestMatch;
      ghost var bits, d := Bits128(key), 0;
      var i: nat, bit: nat := 0, 0x80;
      value, overrun := NO_VALUE, false;
      var node := root;
      TopBit();
      RootPath();
      while node != NULL
        invariant Looking(node, bits, d, value) && d <= 129 && (overrun <==> d == 129)
        invariant d <= 128 ==> At128(d, i, bit)
        decreases 129 - d
      {
        overrun := i == 16;
        var byte := if overrun then beyond else key[i];
        if d < 128 {
          StepBit128(key, d, i, bit);
        }
        LookOn(node, bits, d, value, Test(byte, bit));
        if mem[node].value != NO_VALUE {
          value := mem[node].value;
        }
        if Test(byte, bit) {
          node := mem[node].right;
        } else {
          node := mem[node].left;
        }
        bit := bit / 2;
        d := d + 1;
        if bit == 0 {
          i := i + 1;
          bit := 0x80;
        }
      }
    }
  }

  lemma {:induction false} AllOnes(mask: seq<bool>, n: nat)
    requires n <= |mask| && forall i :: 0 <= i < |mask| ==> mask[i]
    ensures OnesFrom(mask, n) == |mask|
    decreases |mask| - n
  {
    if n < |mask| {
      AllOnes(mask, n + 1);
    }
  }

  lemma FullMask(key: seq<Byte>)
    requires |key| >= 16
    ensures Prefix(Bits128(key), Bits128(seq(16, _ => 255))) == Bits128(key)
  {
    var mask := Bits128(seq(16, _ => 255));
    TopBit();
    forall i | 0 <= i < 128 ensures mask[i] {
      OnesTested(7 - i % 8, 8);
    }
    AllOnes(mask, 0);
  }

  lemma {:induction false} OnesTested(k: nat, m: nat)
    requires k < m
    ensures Test(Pow2(m) - 1, Pow2(k))
  {
    if k > 0 {
      assert (Pow2(m) - 1) / 2 == Pow2(m - 1) - 1;
      OnesTested(k - 1, m - 1);
    }
  }

  lemma {:induction false} MissingFew(p: seq<bool>, at: map<seq<bool>, Ptr>)
    ensures Missing(p, at) <= |p|
  {
    if p !in at && p != [] {
      MissingFew(p[..|p| - 1], at);
    }
  }

  /** Two pages have room for a full address, and looking it up reads the byte after it. */
  method FullAddressOverruns(key: seq<Byte>, value: nat, beyond: Byte) returns (overrun: bool)
    requires |key| == 16
    ensures overrun
  {
    hide Test, Pow2, Bits128, LeadingOnes, Missing, Tree.ValidBut, LongestMatch;
    var t := new Tree(128, 1, 2);
    ghost var before := t.contents;
    FullMask(key);
    MissingFew(Bits128(key), t.at);
    var rc := t.Insert128(key, seq(16, _ => 255), value);
    t.InsertedIsThere(Bits128(key), value, before, rc);
    var found;
    found, overrun := t.Find128(key, beyond);
  }

  lemma {:induction false} NoBits(bit: nat)
    ensures !Test(0, bit)
  {
    if bit > 1 {
      NoBits(bit / 2);
    }
  }

  /** Deleting the empty prefix from a new tree follows NULL. */
  method EmptyTreeCrashes() returns (crash: bool)
    ensures crash
  {
    hide Tree.ValidBut, Test, Pow2;
    NoBits(Pow2(31));
    assert !Bits32(0)[0];
    var t := new Tree(32, 1, 1);
    var rc;
    rc, crash := t.Delete32(0, 0);
  }
}
