/**
  The MD5 of src/core/ngx_md5.c: the buffering of ngx_md5_update, the padding of ngx_md5_final, and
  the block function (RFC 1321).
 */
module Md5 {
  import opened Octets

  const TWO64 := 0x1_0000_0000_0000_0000
  const BLOCK := 64

  // ---------- the block function ----------

  function F(x: bv32, y: bv32, z: bv32): bv32 { z ^ (x & (y ^ z)) }

  function G(x: bv32, y: bv32, z: bv32): bv32 { y ^ (z & (x ^ y)) }

  function H(x: bv32, y: bv32, z: bv32): bv32 { x ^ y ^ z }

  function I(x: bv32, y: bv32, z: bv32): bv32 { y ^ (x | !z) }

  /** F and G are those of section 3.4 of RFC 1321, where they are written otherwise. */
  lemma RoundFunctionsAreRfc(x: bv32, y: bv32, z: bv32)
    ensures F(x, y, z) == (x & y) | (!x & z)
    ensures G(x, y, z) == (x & z) | (y & !z)
  {
  }

  datatype Regs = Regs(a: bv32, b: bv32, c: bv32, d: bv32)

  /** Which words of the block the steps of each round take, */
  const WORDS: seq<seq<nat>> := [
    [0, 1, 2, 3, 4, 5, 6, 7, 8, 9, 10, 11, 12, 13, 14, 15],
    [1, 6, 11, 0, 5, 10, 15, 4, 9, 14, 3, 8, 13, 2, 7, 12],
    [5, 8, 11, 14, 1, 4, 7, 10, 13, 0, 3, 6, 9, 12, 15, 2],
    [0, 7, 14, 5, 12, 3, 10, 1, 8, 15, 6, 13, 4, 11, 2, 9]]

  /** and what the steps add. */
  const CONSTANTS: seq<seq<bv32>> := [
    [0xd76aa478, 0xe8c7b756, 0x242070db, 0xc1bdceee, 0xf57c0faf, 0x4787c62a, 0xa8304613, 0xfd469501,
     0x698098d8, 0x8b44f7af, 0xffff5bb1, 0x895cd7be, 0x6b901122, 0xfd987193, 0xa679438e, 0x49b40821],
    [0xf61e2562, 0xc040b340, 0x265e5a51, 0xe9b6c7aa, 0xd62f105d, 0x02441453, 0xd8a1e681, 0xe7d3fbc8,
     0x21e1cde6, 0xc33707d6, 0xf4d50d87, 0x455a14ed, 0xa9e3e905, 0xfcefa3f8, 0x676f02d9, 0x8d2a4c8a],
    [0xfffa3942, 0x8771f681, 0x6d9d6122, 0xfde5380c, 0xa4beea44, 0x4bdecfa9, 0xf6bb4b60, 0xbebfbc70,
     0x289b7ec6, 0xeaa127fa, 0xd4ef3085, 0x04881d05, 0xd9d4d039, 0xe6db99e5, 0x1fa27cf8, 0xc4ac5665],
    [0xf4292244, 0x432aff97, 0xab9423a7, 0xfc93a039, 0x655b59c3, 0x8f0ccc92, 0xffeff47d, 0x85845dd1,
     0x6fa87e4f, 0xfe2ce6e0, 0xa3014314, 0x4e0811a1, 0xf7537e82, 0xbd3af235, 0x2ad7d2bb, 0xeb86d391]]

  function WordAt(round: nat, i: nat): (k: nat)
    requires round < 4 && i < 16
    ensures k < 16
  {
    WORDS[round][i]
  }

  /** The words of a block are taken in the order of section 3.4 of RFC 1321. */
  lemma WordOrderIsRfc(i: nat)
    requires i < 16
    ensures WordAt(0, i) == i
    ensures WordAt(1, i) == (5 * i + 1) % 16
    ensures WordAt(2, i) == (3 * i + 5) % 16
    ensures WordAt(3, i) == 7 * i % 16
  {
    assert i in WORDS[0];
  }

  function Mix(round: nat, x: bv32, y: bv32, z: bv32): bv32 {
    if round == 0 then F(x, y, z) else if round == 1 then G(x, y, z) else if round == 2 then H(x, y, z) else I(x, y, z)
  }

  /** By how much the steps of a round rotate, four after four. */
  function Shift(round: nat, i: nat): (s: bv32)
    ensures 0 < s < 32
  {
    var k := i % 4;
    if round == 0 then (if k == 0 then 7 else if k == 1 then 12 else if k == 2 then 17 else 22)
    else if round == 1 then (if k == 0 then 5 else if k == 1 then 9 else if k == 2 then 14 else 20)
    else if round == 2 then (if k == 0 then 4 else if k == 1 then 11 else if k == 2 then 16 else 23)
    else (if k == 0 then 6 else if k == 1 then 10 else if k == 2 then 15 else 21)
  }

  function RotateLeft(x: bv32, s: bv32): bv32
    requires 0 < s < 32
  {
    (x << s) | (x >> (32 - s))
  }

  /** SET and GET: the word at 4 * n, low byte first. */
  function Word(block: Bytes, n: nat): bv32
    requires |block| == BLOCK && n < 16
  {
    FromBytes(block[4 * n], block[4 * n + 1], block[4 * n + 2], block[4 * n + 3]) as bv32
  }

  function FromBytes(b0: nat, b1: nat, b2: nat, b3: nat): (w: nat)
    requires b0 < 256 && b1 < 256 && b2 < 256 && b3 < 256
    ensures w < 0x1_0000_0000
  {
    b0 + 0x100 * b1 + 0x1_0000 * b2 + 0x100_0000 * b3
  }

  /** STEP, and the change of roles of the four registers from one to the next. */
  function Step(r: Regs, round: nat, i: nat, block: Bytes): Regs
    requires |block| == BLOCK && round < 4 && i < 16
  {
    var a := Combine(r.a, r.b, Mix(round, r.b, r.c, r.d), Word(block, WordAt(round, i)), CONSTANTS[round][i],
                     Shift(round, i));
    Regs(r.d, a, r.b, r.c)
  }

  /** Addition modulo 2^32. */
  function Add(x: bv32, y: bv32): bv32 {
    x + y
  }

  function Combine(a: bv32, b: bv32, f: bv32, x: bv32, t: bv32, s: bv32): bv32
    requires 0 < s < 32
  {
    Add(RotateLeft(Add(Add(Add(a, f), x), t), s), b)
  }

  /** The first n of the 64 steps. */
  function Steps(r: Regs, block: Bytes, n: nat): Regs
    requires |block| == BLOCK && n <= 64
  {
    if n == 0 then r else Step(Steps(r, block, n - 1), (n - 1) / 16, (n - 1) % 16, block)
  }

  function Compress(r: Regs, block: Bytes): Regs
    requires |block| == BLOCK
  {
    Plus(Steps(r, block, 64), r)
  }

  function Plus(q: Regs, r: Regs): Regs {
    Regs(Add(q.a, r.a), Add(q.b, r.b), Add(q.c, r.c), Add(q.d, r.d))
  }

  // ---------- section 3.4 of RFC 1321 ----------

  /** The auxiliary function of a round, as the RFC writes it. */
  function RfcFunction(round: nat, x: bv32, y: bv32, z: bv32): bv32 {
    match round
    case 0 => (x & y) | (!x & z)
    case 1 => (x & z) | (y & !z)
    case 2 => x ^ y ^ z
    case _ => y ^ (x | !z)
  }

  /** The word and the rotation of step i of a round, from the tables of "[abcd k s i]". */
  function RfcWord(round: nat, i: nat): (k: nat)
    ensures k < 16
  {
    match round
    case 0 => i % 16
    case 1 => (5 * i + 1) % 16
    case 2 => (3 * i + 5) % 16
    case _ => 7 * i % 16
  }

  function RfcRotate(x: bv32, round: nat, i: nat): bv32 {
    match (round, i % 4)
    case (0, 0) => x.RotateLeft(7)
    case (0, 1) => x.RotateLeft(12)
    case (0, 2) => x.RotateLeft(17)
    case (0, _) => x.RotateLeft(22)
    case (1, 0) => x.RotateLeft(5)
    case (1, 1) => x.RotateLeft(9)
    case (1, 2) => x.RotateLeft(14)
    case (1, _) => x.RotateLeft(20)
    case (2, 0) => x.RotateLeft(4)
    case (2, 1) => x.RotateLeft(11)
    case (2, 2) => x.RotateLeft(16)
    case (2, _) => x.RotateLeft(23)
    case (_, 0) => x.RotateLeft(6)
    case (_, 1) => x.RotateLeft(10)
    case (_, 2) => x.RotateLeft(15)
    case (_, _) => x.RotateLeft(21)
  }

  /** b + ((a + f(b, c, d) + X[k] + T[i]) <<< s) */
  function RfcOperation(a: bv32, b: bv32, f: bv32, x: bv32, t: bv32, round: nat, i: nat): bv32 {
    Add(b, RfcRotate(Add(Add(Add(a, f), x), t), round, i))
  }

  /** Which of the four words has the part of "a" in step n: A, then D, then C, then B. */
  function Turn(n: nat): (p: nat)
    ensures p < 4
  {
    (4 - n % 4) % 4
  }

  /** Step n on the words A, B, C, D: a = b + ((a + f(b, c, d) + X[k] + T[i]) <<< s). */
  function RfcStep(w: seq<bv32>, n: nat, block: Bytes): (w': seq<bv32>)
    requires |w| == 4 && n < 64 && |block| == BLOCK
    ensures |w'| == 4
  {
    var p, round, i := Turn(n), n / 16, n % 16;
    var a, b, c, d := w[p], w[(p + 1) % 4], w[(p + 2) % 4], w[(p + 3) % 4];
    w[p := RfcOperation(a, b, RfcFunction(round, b, c, d), Word(block, RfcWord(round, i)), CONSTANTS[round][i],
                        round, i)]
  }

  function RfcSteps(w: seq<bv32>, block: Bytes, n: nat): (w': seq<bv32>)
    requires |w| == 4 && n <= 64 && |block| == BLOCK
    ensures |w'| == 4
  {
    if n == 0 then w else RfcStep(RfcSteps(w, block, n - 1), n - 1, block)
  }

  /** The registers in their roles before step n. */
  ghost predicate InRoles(r: Regs, w: seq<bv32>, n: nat) {
    && |w| == 4
    && r.a == w[Turn(n)] && r.b == w[(Turn(n) + 1) % 4] && r.c == w[(Turn(n) + 2) % 4] && r.d == w[(Turn(n) + 3) % 4]
  }

  lemma MixIsRfc(round: nat, x: bv32, y: bv32, z: bv32)
    requires round < 4
    ensures Mix(round, x, y, z) == RfcFunction(round, x, y, z)
  {
    hide F, G, H, I;
    RoundFunctionsAreRfc(x, y, z);
    OtherFunctions(x, y, z);
  }

  lemma OtherFunctions(x: bv32, y: bv32, z: bv32)
    ensures H(x, y, z) == x ^ y ^ z
    ensures I(x, y, z) == y ^ (x | !z)
  {
  }

  lemma TablesAreRfc(round: nat, i: nat)
    requires round < 4 && i < 16
    ensures WordAt(round, i) == RfcWord(round, i)
  {
    WordOrderIsRfc(i);
  }

  lemma RotationIsRfc(x: bv32, round: nat, i: nat)
    requires round < 4 && i < 16
    ensures RotateLeft(x, Shift(round, i)) == RfcRotate(x, round, i)
  {
    hide RotateLeft;
    OddRotations(x);
    EvenRotations(x);
  }

  lemma OddRotations(x: bv32)
    ensures RotateLeft(x, 7) == x.RotateLeft(7)
    ensures RotateLeft(x, 12) == x.RotateLeft(12)
    ensures RotateLeft(x, 17) == x.RotateLeft(17)
    ensures RotateLeft(x, 22) == x.RotateLeft(22)
    ensures RotateLeft(x, 5) == x.RotateLeft(5)
    ensures RotateLeft(x, 9) == x.RotateLeft(9)
    ensures RotateLeft(x, 14) == x.RotateLeft(14)
    ensures RotateLeft(x, 20) == x.RotateLeft(20)
  {
  }

  lemma EvenRotations(x: bv32)
    ensures RotateLeft(x, 4) == x.RotateLeft(4)
    ensures RotateLeft(x, 11) == x.RotateLeft(11)
    ensures RotateLeft(x, 16) == x.RotateLeft(16)
    ensures RotateLeft(x, 23) == x.RotateLeft(23)
    ensures RotateLeft(x, 6) == x.RotateLeft(6)
    ensures RotateLeft(x, 10) == x.RotateLeft(10)
    ensures RotateLeft(x, 15) == x.RotateLeft(15)
    ensures RotateLeft(x, 21) == x.RotateLeft(21)
  {
  }

  lemma CombineIsRfc(a: bv32, b: bv32, f: bv32, x: bv32, t: bv32, round: nat, i: nat)
    requires round < 4 && i < 16
    ensures Combine(a, b, f, x, t, Shift(round, i)) == RfcOperation(a, b, f, x, t, round, i)
  {
    hide RotateLeft, RfcRotate, Shift, Add;
    var sum := Add(Add(Add(a, f), x), t);
    RotationIsRfc(sum, round, i);
    Commute(RfcRotate(sum, round, i), b);
  }

  lemma Commute(x: bv32, y: bv32)
    ensures Add(x, y) == Add(y, x)
  {
  }

  lemma TurnNext(n: nat)
    ensures Turn(n + 1) == (Turn(n) + 3) % 4
    ensures (Turn(n + 1) + 1) % 4 == Turn(n) && (Turn(n + 1) + 2) % 4 == (Turn(n) + 1) % 4
    ensures (Turn(n + 1) + 3) % 4 == (Turn(n) + 2) % 4
  {
  }

  lemma StepIsRfc(r: Regs, w: seq<bv32>, n: nat, block: Bytes)
    requires n < 64 && |block| == BLOCK && InRoles(r, w, n)
    ensures InRoles(Step(r, n / 16, n % 16, block), RfcStep(w, n, block), n + 1)
  {
    hide Mix, RfcFunction, WordAt, RfcWord, Combine, RfcOperation, Word, Shift;
    var round, i := n / 16, n % 16;
    MixIsRfc(round, r.b, r.c, r.d);
    TablesAreRfc(round, i);
    CombineIsRfc(r.a, r.b, Mix(round, r.b, r.c, r.d), Word(block, WordAt(round, i)), CONSTANTS[round][i], round, i);
    TurnNext(n);
  }

  lemma {:induction false} StepsAreRfc(r: Regs, block: Bytes, n: nat)
    requires |block| == BLOCK && n <= 64
    ensures InRoles(Steps(r, block, n), RfcSteps([r.a, r.b, r.c, r.d], block, n), n)
  {
    hide Step, RfcStep;
    if n > 0 {
      StepsAreRfc(r, block, n - 1);
      StepIsRfc(Steps(r, block, n - 1), RfcSteps([r.a, r.b, r.c, r.d], block, n - 1), n - 1, block);
    }
  }

  /** A block is processed as section 3.4 says: 64 operations, and the sums with what was there before. */
  lemma CompressIsRfc(r: Regs, block: Bytes)
    requires |block| == BLOCK
    ensures var w := RfcSteps([r.a, r.b, r.c, r.d], block, 64);
      Compress(r, block) == Regs(Add(w[0], r.a), Add(w[1], r.b), Add(w[2], r.c), Add(w[3], r.d))
  {
    hide Steps, RfcSteps, Add;
    StepsAreRfc(r, block, 64);
    assert Turn(64) == 0;
  }

  /** The four bytes of a word, low byte first. */
  lemma FourBytes(b0: Byte, b1: Byte, b2: Byte, b3: Byte)
    ensures Le(FromBytes(b0, b1, b2, b3), 4) == [b0, b1, b2, b3]
  {
    var v := FromBytes(b0, b1, b2, b3);
    assert v % 256 == b0 && v / 256 == b1 + 0x100 * b2 + 0x1_0000 * b3;
    assert v / 256 / 256 == b2 + 0x100 * b3 && v / 256 / 256 / 256 == b3;
    assert Le(v / 256 / 256 / 256, 1) == [b3] + Le(0, 0) == [b3];
    assert Le(v / 256 / 256, 2) == [b2] + Le(v / 256 / 256 / 256, 1);
    assert Le(v / 256, 3) == [b1] + Le(v / 256 / 256, 2);
  }

  /** All blocks of a message, one after the other. */
  function Fold(r: Regs, m: Bytes): Regs
    requires |m| % BLOCK == 0
    decreases |m|
  {
    if m == [] then r
    else
      OneBlock(|m|);
      Fold(Compress(r, m[..BLOCK]), m[BLOCK..])
  }

  lemma OneBlock(n: nat)
    requires n % BLOCK == 0 && n > 0
    ensures n >= BLOCK && (n - BLOCK) % BLOCK == 0
  {
    assert n == BLOCK * (n / BLOCK);
    assert n - BLOCK == BLOCK * (n / BLOCK - 1);
  }

  lemma {:induction false} FoldJoin(r: Regs, m: Bytes, n: Bytes)
    requires |m| % BLOCK == 0 && |n| % BLOCK == 0
    ensures (|m| + |n|) % BLOCK == 0 && Fold(r, m + n) == Fold(Fold(r, m), n)
    decreases |m|
  {
    hide Compress;
    if m == [] {
      assert m + n == n;
    } else {
      FoldJoin(Compress(r, m[..BLOCK]), m[BLOCK..], n);
      assert (m + n)[..BLOCK] == m[..BLOCK] && (m + n)[BLOCK..] == m[BLOCK..] + n;
    }
  }

  // ---------- the message ----------

  const INIT := Regs(0x67452301, 0xefcdab89, 0x98badcfe, 0x10325476)

  function Zeros(n: nat): (z: Bytes)
    ensures |z| == n && forall i :: 0 <= i < n ==> z[i] == 0
  {
    seq(n, _ => 0)
  }

  /** How many zero bytes go between the byte 0x80 and the length. */
  function Gap(n: nat): (k: nat)
    ensures k < BLOCK && (n + 1 + k + 8) % BLOCK == 0
  {
    (119 - n % BLOCK) % BLOCK
  }

  /** The number of bits, as 64 bits. */
  function Bits(n: nat): (b: nat)
    ensures b < TWO64
  {
    8 * n % TWO64
  }

  /** The padded message of sections 3.1 and 3.2 of RFC 1321. */
  function Padded(m: Bytes): (p: Bytes)
    ensures |p| % BLOCK == 0 && m <= p
  {
    m + [0x80] + Zeros(Gap(|m|)) + Le(Bits(|m|), 8)
  }

  /** A one bit, zeros up to the last eight bytes of a block, fewer than a block, and the number of bits. */
  lemma PaddedIsRfc(m: Bytes)
    requires 8 * |m| < TWO64
    ensures var p := Padded(m);
      && |p| % BLOCK == 0 && |m| + 9 <= |p| < |m| + 9 + BLOCK && p[..|m|] == m && p[|m|] == 0x80
      && (forall i :: |m| < i < |p| - 8 ==> p[i] == 0)
      && FromLe(p[|p| - 8..]) == 8 * |m|
  {
    hide Padded, Bits, Le, FromLe;
    PaddedParts(m);
    BitsAre(|m|);
    Eight();
    LeRoundTrip(Bits(|m|), 8);
  }

  lemma PaddedParts(m: Bytes)
    ensures var p := Padded(m);
      && |p| == |m| + 9 + Gap(|m|) && p[..|m|] == m && p[|m|] == 0x80
      && (forall i :: |m| < i < |p| - 8 ==> p[i] == 0) && p[|p| - 8..] == Le(Bits(|m|), 8)
  {
    hide Bits, Le, Gap;
  }

  lemma BitsAre(n: nat)
    requires 8 * n < TWO64
    ensures Bits(n) == 8 * n
  {
  }

  lemma Eight()
    ensures Pow256(8) == TWO64
  {
    assert Pow256(4) == 0x1_0000_0000;
  }

  /** The registers start as section 3.3 of RFC 1321 says, and are written low byte first, A to D. */
  lemma RegistersAreRfc(r: Regs)
    ensures INIT.a as int == FromBytes(0x01, 0x23, 0x45, 0x67) && INIT.b as int == FromBytes(0x89, 0xab, 0xcd, 0xef)
    ensures INIT.c as int == FromBytes(0xfe, 0xdc, 0xba, 0x98) && INIT.d as int == FromBytes(0x76, 0x54, 0x32, 0x10)
    ensures Output(r)[0..4] == Le(r.a as int, 4) && Output(r)[4..8] == Le(r.b as int, 4)
    ensures Output(r)[8..12] == Le(r.c as int, 4) && Output(r)[12..16] == Le(r.d as int, 4)
  {
  }

  function WordBytes(w: bv32): (r: Bytes)
    ensures |r| == 4
  {
    Le(w as int, 4)
  }

  /** The digest of a message. */
  function Digest(m: Bytes): (r: Bytes)
    ensures |r| == 16
  {
    Output(Fold(INIT, Padded(m)))
  }

  function Output(r: Regs): (o: Bytes)
    ensures |o| == 16
  {
    WordBytes(r.a) + WordBytes(r.b) + WordBytes(r.c) + WordBytes(r.d)
  }

  /** The 64 steps for one block. */
  method Transform(saved: Regs, block: Bytes) returns (r: Regs)
    requires |block| == BLOCK
    ensures r == Compress(saved, block)
  {
    hide Step, Steps, Plus;
    r := saved;
    StepsNone(saved, block);
    for i := 0 to 64
      invariant r == Steps(saved, block, i)
    {
      StepsNext(saved, block, i);
      r := Step(r, i / 16, i % 16, block);
    }
    r := Plus(r, saved);
  }

  lemma StepsNone(r: Regs, block: Bytes)
    requires |block| == BLOCK
    ensures Steps(r, block, 0) == r
  {
  }

  lemma StepsNext(r: Regs, block: Bytes, i: nat)
    requires |block| == BLOCK && i < 64
    ensures Steps(r, block, i + 1) == Step(Steps(r, block, i), i / 16, i % 16, block)
  {
    hide Step;
  }

  /** ngx_md5_body */
  method Body(r: Regs, data: Bytes) returns (r': Regs)
    requires |data| % BLOCK == 0 && data != []
    ensures r' == Fold(r, data)
  {
    hide Fold, Compress;
    r' := r;
    var p := data;
    while p != []
      invariant |p| % BLOCK == 0 && Fold(r, data) == Fold(r', p)
      decreases |p|
    {
      FoldStep(r', p);
      r' := Transform(r', p[..BLOCK]);
      p := p[BLOCK..];
    }
    FoldNothing(r', p);
  }

  lemma FoldStep(r: Regs, m: Bytes)
    requires |m| % BLOCK == 0 && m != []
    ensures |m| >= BLOCK && (OneBlock(|m|); Fold(r, m) == Fold(Compress(r, m[..BLOCK]), m[BLOCK..]))
  {
  }

  lemma FoldNothing(r: Regs, m: Bytes)
    requires m == []
    ensures Fold(r, m) == r
  {
  }

  // ---------- the context ----------

  /** The bytes of a message that do not fill a block. */
  function Tail(m: Bytes): (t: Bytes)
    ensures |t| == |m| % BLOCK
  {
    m[|m| - |m| % BLOCK..]
  }

  function Full(m: Bytes): (f: Bytes)
    ensures |f| % BLOCK == 0 && f + Tail(m) == m
  {
    m[..|m| - |m| % BLOCK]
  }

  class Context {
    var regs: Regs
    var bytes: nat                // modulo 2^64
    var buffer: array<Byte>
    ghost var message: Bytes      // all bytes given so far

    /** The full blocks are in the registers, the rest is in the buffer. */
    ghost predicate Valid()
      reads this, buffer
    {
      && buffer.Length == BLOCK && bytes == |message| % TWO64
      && regs == Fold(INIT, Full(message))
      && buffer[..|Tail(message)|] == Tail(message)
    }

    /** ngx_md5_init */
    constructor ()
      ensures Valid() && message == [] && fresh(buffer)
    {
      regs, bytes, message := INIT, 0, [];
      buffer := new Byte[BLOCK];
    }

    /** ngx_memcpy into the buffer. */
    method Fill(at: nat, s: Bytes)
      requires at + |s| <= buffer.Length
      modifies buffer
      ensures buffer[..at + |s|] == old(buffer[..at]) + s
    {
      forall j | 0 <= j < |s| {
        buffer[at + j] := s[j];
      }
    }

    /** ngx_md5_update */
    method Update(data: Bytes)
      requires Valid() && |data| < TWO64
      modifies this, buffer
      ensures Valid() && buffer == old(buffer) && message == old(message) + data
    {
      hide Fold, Full, Tail;
      var used := bytes % BLOCK;
      ghost var m, m1 := message, message;
      UsedIs(|m|);
      BytesAdd(|m|, |data|);
      if |m| % BLOCK == 0 {
        WholeMessage(m);
      }
      var rest := data;
      bytes := (bytes + |data|) % TWO64;
      message := m + data;
      if used > 0 {
        var room := BLOCK - used;
        if |data| < room {
          Fill(used, data);
          FewMore(m, data);
          return;
        }
        Fill(used, data[..room]);
        rest := data[room..];
        m1 := m + data[..room];
        CompletesBlock(m, data[..room]);
        FoldJoin(INIT, Full(m), buffer[..BLOCK]);
        var block := buffer[..];
        assert block == buffer[..BLOCK];
        regs := Body(regs, block);
        assert m + data == m1 + rest;
      }
      AddBlocks(m1, rest);
    }

    /** The rest of an update, from the end of a block on: full blocks are not copied. */
    method AddBlocks(ghost m1: Bytes, rest: Bytes)
      requires buffer.Length == BLOCK && bytes == |message| % TWO64
      requires |m1| % BLOCK == 0 && regs == Fold(INIT, m1) && message == m1 + rest
      modifies this`regs, buffer
      ensures Valid()
    {
      hide Fold, Full, Tail;
      var n := |rest| - |rest| % BLOCK;
      if |rest| >= BLOCK {
        regs := Body(regs, rest[..n]);
        FoldJoin(INIT, m1, rest[..n]);
      } else {
        assert m1 + rest[..n] == m1;
      }
      Fill(0, rest[n..]);
      WholeMessage(m1 + rest[..n]);
      FewMore(m1 + rest[..n], rest[n..]);
      assert message == m1 + rest[..n] + rest[n..];
    }

    /** ngx_md5_final; the context is wiped, and must be set up again before it is used. */
    method Final() returns (result: Bytes)
      requires Valid()
      modifies this, buffer
      ensures result == Digest(old(message))
    {
      hide Fold, Full, Tail, Padded, Zeros, Gap, Bits, Output, Le;
      ghost var m := message;
      UsedIs(|m|);
      var used := bytes % BLOCK;
      Fill(used, [0x80]);
      used := used + 1;
      var room := BLOCK - used;
      ghost var first := [];
      if room < 8 {
        Fill(used, Zeros(room));
        var block := buffer[..];
        assert block == buffer[..used + room];
        first := block;
        FoldJoin(INIT, Full(m), block);
        regs := Body(regs, block);
        used, room := 0, 64;
      }
      Fill(used, Zeros(room - 8));
      BitsOf(|m|);
      bytes := bytes * 8 % TWO64;
      Fill(56, Le(bytes, 8));
      var last := buffer[..];
      assert last == buffer[..64];
      PaddedIs(m, first, last);
      FoldJoin(INIT, Full(m) + first, last);
      assert Full(m) + [] == Full(m);
      regs := Body(regs, last);
      result := Output(regs);
      forall k | 0 <= k < buffer.Length {
        buffer[k] := 0;
      }
      regs, bytes := Regs(0, 0, 0, 0), 0;
    }
  }

  lemma BitsOf(n: nat)
    ensures n % TWO64 * 8 % TWO64 == Bits(n)
  {
  }

  /** The one or two blocks of the padding, with the rest of the message before it. */
  lemma PaddedIs(m: Bytes, first: Bytes, last: Bytes)
    requires var t := Tail(m) + [0x80];
      if |t| + 8 <= BLOCK then first == [] && last == t + Zeros(BLOCK - 8 - |t|) + Le(Bits(|m|), 8)
      else first == t + Zeros(BLOCK - |t|) && last == Zeros(BLOCK - 8) + Le(Bits(|m|), 8)
    ensures Padded(m) == Full(m) + first + last && |first| % BLOCK == 0 && |last| == BLOCK
  {
    hide Le, Full, Tail, Bits;
    var n, t := |m|, Tail(m) + [0x80];
    if |t| + 8 <= BLOCK {
      assert Gap(n) == BLOCK - 8 - |t|;
    } else {
      assert Gap(n) == BLOCK - |t| + BLOCK - 8;
      assert Zeros(Gap(n)) == Zeros(BLOCK - |t|) + Zeros(BLOCK - 8);
    }
    assert m == Full(m) + Tail(m);
  }

  lemma UsedIs(n: nat)
    ensures n % TWO64 % BLOCK == n % BLOCK
  {
  }

  lemma BytesAdd(n: nat, k: nat)
    ensures (n % TWO64 + k) % TWO64 == (n + k) % TWO64
  {
  }

  lemma WholeMessage(m: Bytes)
    requires |m| % BLOCK == 0
    ensures Tail(m) == [] && Full(m) == m
  {
  }

  /** Bytes that do not complete a block. */
  lemma FewMore(m: Bytes, s: Bytes)
    requires |m| % BLOCK + |s| < BLOCK
    ensures Tail(m + s) == Tail(m) + s && Full(m + s) == Full(m)
  {
    assert (|m| + |s|) % BLOCK == |m| % BLOCK + |s|;
  }

  /** Bytes that complete one. */
  lemma CompletesBlock(m: Bytes, s: Bytes)
    requires |m| % BLOCK + |s| == BLOCK
    ensures |m + s| % BLOCK == 0 && m + s == Full(m) + (Tail(m) + s)
  {
  }

  // ---------- messages in parts ----------

  function Concat(parts: seq<Bytes>): Bytes {
    if parts == [] then [] else Concat(parts[..|parts| - 1]) + parts[|parts| - 1]
  }

  /** The digest does not depend on how a message is split over the updates. */
  method DigestOf(parts: seq<Bytes>) returns (result: Bytes)
    requires forall i :: 0 <= i < |parts| ==> |parts[i]| < TWO64
    ensures result == Digest(Concat(parts))
  {
    hide Digest;
    var ctx := new Context();
    for i := 0 to |parts|
      invariant ctx.Valid() && fresh(ctx) && fresh(ctx.buffer) && ctx.message == Concat(parts[..i])
    {
      ctx.Update(parts[i]);
      assert parts[..i + 1][..i] == parts[..i];
    }
    assert parts[..|parts|] == parts;
    result := ctx.Final();
  }
}
