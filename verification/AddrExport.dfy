/**
  ngx_resolver_export of src/core/ngx_resolver.c: the addresses of a name are handed out rotated,
  those of each family from a random one on, and all from a random place on.
 */
module AddrExport {

  datatype Addr = V4(a: int) | V6(b: int)

  /** s from index j on, and then from its start. */
  function Turned<T>(s: seq<T>, j: nat): (r: seq<T>)
    requires j <= |s|
    ensures |r| == |s|
  {
    s[j..] + s[..j]
  }

  lemma TurnedHasAll<T>(s: seq<T>, j: nat)
    requires j <= |s|
    ensures multiset(Turned(s, j)) == multiset(s)
  {
    assert s == s[..j] + s[j..];
  }

  /** A random index below n. */
  function Draw(rotate: bool, random: nat, n: nat): (j: nat)
    requires n > 0
    ensures j < n
  {
    if rotate then random % n else 0
  }

  /** Without rotation it is the first; with it, every index is drawn by every n-th random number. */
  lemma DrawIsFair(random: nat, n: nat, j: nat)
    requires j < n
    ensures Draw(false, random, n) == 0
    ensures Draw(true, random * n + j, n) == j
  {
    Remainder(random, n, j);
  }

  lemma Remainder(q: nat, n: nat, j: nat)
    requires j < n
    ensures (q * n + j) % n == j
  {
    var x := q * n + j;
    if x / n < q {
      Larger(x / n + 1, q, n);
    } else if x / n > q {
      Larger(q + 1, x / n, n);
    }
  }

  lemma Larger(a: nat, b: nat, n: nat)
    requires a <= b
    ensures a * n <= b * n
  {
  }

  /** The loop for one family: `from` go to the next |from| places of dst. */
  method Place(from: seq<Addr>, j0: nat, dst: array<Addr>, ghost d0: nat, d1: nat, ghost x: seq<Addr>) returns (d: nat)
    requires j0 < |from| && d0 < dst.Length && d1 < dst.Length
    requires |x| + |from| <= dst.Length && d1 == Step(d0, |x|, dst.Length) && Filled(dst[..], d0, x)
    modifies dst
    ensures d < dst.Length && d == Step(d0, |x| + |from|, dst.Length)
    ensures Filled(dst[..], d0, x + Turned(from, j0))
  {
    var j := j0;
    d := d1;
    ghost var y := x;
    for i := 0 to |from|
      invariant y == x + Turned(from, j0)[..i]
      invariant d == Step(d0, |x| + i, dst.Length) < dst.Length && Filled(dst[..], d0, y)
      invariant j == (if j0 + i < |from| then j0 + i else j0 + i - |from|) && j < |from|
    {
      assert from[j] == Turned(from, j0)[i];
      ghost var was := dst[..];
      dst[d] := from[j];
      FilledNext(was, d0, y, from[j]);
      assert dst[..] == was[d := from[j]];
      y := y + [from[j]];
      d := d + 1;
      j := j + 1;
      if d == dst.Length {
        d := 0;
      }
      if j == |from| {
        j := 0;
      }
    }
  }

  /** The place t steps after d0, round the end. */
  function Step(d0: nat, t: nat, n: nat): int {
    if d0 + t < n then d0 + t else d0 + t - n
  }

  /** From place d0 on, round the end, dst holds x. */
  ghost predicate Filled(dst: seq<Addr>, d0: nat, x: seq<Addr>) {
    && d0 <= |dst| && |x| <= |dst|
    && Turned(dst, d0)[..|x|] == x
  }

  lemma FilledNext(dst: seq<Addr>, d0: nat, x: seq<Addr>, a: Addr)
    requires d0 < |dst| && |x| < |dst| && Filled(dst, d0, x)
    ensures var d := Step(d0, |x|, |dst|);
      0 <= d < |dst| && Filled(dst[d := a], d0, x + [a])
  {
    var d := Step(d0, |x|, |dst|);
    var changed := dst[d := a];
    assert Turned(changed, d0) == Turned(dst, d0)[|x| := a];
  }

  /** ngx_resolver_export; the three random numbers are drawn if the addresses are to be rotated. */
  method Export(v4: seq<Addr>, v6: seq<Addr>, rotate: bool, r0: nat, r1: nat, r2: nat) returns (dst: array<Addr>)
    requires |v4| + |v6| > 0
    ensures dst.Length == |v4| + |v6|
    ensures var d, j4, j6 := Draw(rotate, r0, |v4| + |v6|),
                             if v4 == [] then 0 else Draw(rotate, r1, |v4|),
                              if v6 == [] then 0 else Draw(rotate, r2, |v6|);
      Turned(dst[..], d) == Turned(v4, j4) + Turned(v6, j6)
    ensures multiset(dst[..]) == multiset(v4) + multiset(v6)
  {
    var n := |v4| + |v6|;
    dst := new Addr[n](_ => V4(0));
    var d: nat := Draw(rotate, r0, n);
    ghost var d0, x: seq<Addr> := d, [];
    if v4 != [] {
      var j := Draw(rotate, r1, |v4|);
      d := Place(v4, j, dst, d0, d, x);
      x := x + Turned(v4, j);
      TurnedHasAll(v4, j);
    }
    if v6 != [] {
      var j := Draw(rotate, r2, |v6|);
      d := Place(v6, j, dst, d0, d, x);
      x := x + Turned(v6, j);
      TurnedHasAll(v6, j);
    }
    assert Turned(dst[..], d0)[..n] == Turned(dst[..], d0) == x;
    TurnedHasAll(dst[..], d0);
  }
}
