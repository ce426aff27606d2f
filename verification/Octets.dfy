/** Bytes and strings of bytes, with the case folding of src/core/ngx_string.h and ngx_string.c. */
module Octets {
  type Byte = x: int | 0 <= x < 256
  type Bytes = seq<Byte>

  const DOT: Byte := 46

  /** ngx_tolower */
  function Lower(c: Byte): Byte {
    if 65 <= c <= 90 then c + 32 else c
  }

  /** "A" to "Z" become "a" to "z", and lowering is done with. */
  lemma LowerLetters(k: nat, c: Byte)
    requires k < 26
    ensures Lower('A' as int + k) == 'a' as int + k
    ensures Lower(Lower(c)) == Lower(c)
    ensures !('A' as int <= c <= 'Z' as int) ==> Lower(c) == c
  {
  }

  /** ngx_strlow */
  function LowerAll(s: Bytes): (r: Bytes)
    ensures |r| == |s|
    ensures forall i :: 0 <= i < |s| ==> r[i] == Lower(s[i])
  {
    if s == [] then [] else [Lower(s[0])] + LowerAll(s[1..])
  }

  // ---------- labels: parts of a name between dots ----------

  /** Where the first label ends. */
  function First(s: Bytes): (r: nat)
    ensures r <= |s| && (r < |s| ==> s[r] == DOT)
    ensures forall i :: 0 <= i < r ==> s[i] != DOT
  {
    if s == [] || s[0] == DOT then 0 else 1 + First(s[1..])
  }

  predicate DotFree(l: Bytes) {
    forall i :: 0 <= i < |l| ==> l[i] != DOT
  }

  function Label(s: Bytes): (l: Bytes)
    ensures DotFree(l) && l <= s
    ensures l == s || l + [DOT] <= s
  {
    s[..First(s)]
  }

  lemma LabelIs(s: Bytes, l: Bytes)
    requires DotFree(l) && (s == l || l + [DOT] <= s)
    ensures Label(s) == l && First(s) == |l|
  {
    var f := First(s);
    if s != l {
      assert s[|l|] == (l + [DOT])[|l|];
      assert forall i :: 0 <= i < |l| ==> s[i] == l[i];
      assert s[..|l|] == l;
    }
  }

  lemma CutAt(s: Bytes, i: nat)
    requires i < |s| && s[i] == DOT
    ensures s == s[..i] + [DOT] + s[i + 1..]
  {
  }

  // ---------- numbers as bytes ----------

  /** The n low bytes of a number, little-endian. */
  function Le(v: nat, n: nat): (s: Bytes)
    ensures |s| == n
  {
    if n == 0 then [] else [v % 256] + Le(v / 256, n - 1)
  }

  function FromLe(s: Bytes): nat {
    if s == [] then 0 else s[0] + 256 * FromLe(s[1..])
  }

  function Pow256(n: nat): (p: nat)
    ensures p > 0
  {
    if n == 0 then 1 else 256 * Pow256(n - 1)
  }

  lemma {:induction false} LeRoundTrip(v: nat, n: nat)
    requires v < Pow256(n)
    ensures FromLe(Le(v, n)) == v
  {
    if n > 0 {
      LeRoundTrip(v / 256, n - 1);
      assert Le(v, n)[1..] == Le(v / 256, n - 1);
    }
  }
}
