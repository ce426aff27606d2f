/**
  The wildcard hashes of src/core/ngx_hash.c.  ngx_hash_wildcard_init turns a sorted list of names
  with reversed labels into a trie whose levels are hashes; the two low bits of a value say what it
  is.  A level has the list of keys its ngx_hash_init was given, for the proofs, and the packed hash
  that was made of them, which is what is searched.
 */
module WildcardHash {
  import opened HashTable
  import opened Octets
  import opened Wrappers

  const SPACE: Byte := 32
  const STAR: Byte := 42
  const SIZE := 16              // of an ngx_hash_wildcard_t, or more
  const MEMORY := 0x1_0000_0000_0000_0000   // addresses there are

  /** A name as ngx_hash_wildcard_init gets it: "com.example." for "*.example.com", "com.example" for ".example.com". */
  datatype Name = Name(name: Bytes, value: nat)

  /** ngx_hash_wildcard_t: the keys of its hash, and the value of the wildcard itself. */
  datatype Level = Level(keys: seq<Key>, value: nat)

  type Names = map<Bytes, nat>

  // ---------- labels ----------

  /** The labels of s in reverse order: "example.com" gives "com.example". */
  function Rev(s: Bytes): (r: Bytes)
    ensures |r| == |s|
    decreases |s|
  {
    var f := First(s);
    if f == |s| then s else Rev(s[f + 1..]) + [DOT] + s[..f]
  }

  /** Rev, seen from any dot-free first label. */
  lemma RevCut(l: Bytes, s: Bytes)
    requires DotFree(l)
    ensures Rev(l) == l
    ensures Rev(l + [DOT] + s) == Rev(s) + [DOT] + l
  {
    hide First;
    var t := l + [DOT] + s;
    assert t[..|l| + 1] == l + [DOT];
    LabelIs(l, l);
    LabelIs(t, l);
    assert t[|l| + 1..] == s && t[..|l|] == l;
  }

  lemma {:induction false} RevJoin(a: Bytes, b: Bytes)
    ensures Rev(a + [DOT] + b) == Rev(b) + [DOT] + Rev(a)
    decreases |a|
  {
    hide Rev;
    var f := First(a);
    if f == |a| {
      RevCut(a, b);
    } else {
      var l, c := a[..f], a[f + 1..];
      CutAt(a, f);
      RevCut(l, c);
      RevCut(l, c + [DOT] + b);
      RevJoin(c, b);
      Regroup(l, c, b);
      Regroup(Rev(b), Rev(c), l);
    }
  }

  lemma Regroup(x: Bytes, y: Bytes, z: Bytes)
    ensures (x + [DOT] + y) + [DOT] + z == x + [DOT] + (y + [DOT] + z)
  {
  }

  lemma {:induction false} RevTwice(s: Bytes)
    ensures Rev(Rev(s)) == s
    decreases |s|
  {
    hide Rev;
    var f := First(s);
    if f == |s| {
      RevCut(s, []);
    } else {
      var l, c := s[..f], s[f + 1..];
      CutAt(s, f);
      RevCut(l, c);
      RevTwice(c);
      RevJoin(Rev(c), l);
    }
  }

  // ---------- matching ----------

  predicate EndsDot(s: Bytes) {
    s != [] && s[|s| - 1] == DOT
  }

  /** A name of a head hash matches a host whose labels are reversed to t. */
  predicate MatchesHead(s: Bytes, t: Bytes) {
    if EndsDot(s) then s <= t else s == t || s + [DOT] <= t
  }

  /** A name of a tail hash, "www.example" for "www.example.*", matches a host t. */
  predicate MatchesTail(s: Bytes, t: Bytes) {
    s + [DOT] <= t
  }

  predicate Matches(tail: bool, s: Bytes, t: Bytes) {
    if tail then MatchesTail(s, t) else MatchesHead(s, t)
  }

  /** How much of the host a name fixes. */
  function Depth(s: Bytes): nat {
    if EndsDot(s) then |s| - 1 else |s|
  }

  predicate EndsWith(h: Bytes, b: Bytes) {
    |b| <= |h| && h[|h| - |b|..] == b
  }

  lemma SuffixThenPrefix(b: Bytes, h: Bytes)
    requires EndsWith(h, [DOT] + b)
    ensures Rev(b) + [DOT] <= Rev(h)
  {
    hide Rev, First;
    var x := h[..|h| - |b| - 1];
    assert h == x + ([DOT] + b) == x + [DOT] + b;
    RevJoin(x, b);
  }

  lemma PrefixThenSuffix(b: Bytes, h: Bytes)
    requires Rev(b) + [DOT] <= Rev(h)
    ensures EndsWith(h, [DOT] + b)
  {
    hide Rev, First;
    RevTwice(b);
    RevTwice(h);
    var y := Rev(h)[|b| + 1..];
    assert Rev(h) == Rev(b) + [DOT] + y;
    RevJoin(Rev(b), y);
    assert h == Rev(y) + ([DOT] + b);
  }

  lemma RevEnd(b: Bytes)
    requires b != [] ==> b[0] != DOT
    ensures !EndsDot(Rev(b))
  {
    if b != [] {
      var f := First(b);
      assert b[..f][f - 1] != DOT;
    }
  }

  /** On hosts as they are written: "*.b" stands for all that ends with ".b", and ".b" for b as well. */
  lemma HeadPattern(b: Bytes, h: Bytes)
    requires b != [] ==> b[0] != DOT
    ensures MatchesHead(Rev(b) + [DOT], Rev(h)) <==> EndsWith(h, [DOT] + b)
    ensures MatchesHead(Rev(b), Rev(h)) <==> h == b || EndsWith(h, [DOT] + b)
    ensures Depth(Rev(b)) == Depth(Rev(b) + [DOT]) == |b|
  {
    hide Rev, First;
    RevEnd(b);
    RevTwice(b);
    RevTwice(h);
    if EndsWith(h, [DOT] + b) {
      SuffixThenPrefix(b, h);
    }
    if Rev(b) + [DOT] <= Rev(h) {
      PrefixThenSuffix(b, h);
    }
  }

  /** r is the value of the most specific of the names that match t, or `own` if none does. */
  ghost predicate MostSpecific(tail: bool, ns: Names, t: Bytes, own: nat, r: nat) {
    if exists s :: s in ns && Matches(tail, s, t)
    then exists s :: s in ns && Matches(tail, s, t) && r == ns[s] && Deepest(tail, ns, t, s)
    else r == own
  }

  ghost predicate Deepest(tail: bool, ns: Names, t: Bytes, s: Bytes) {
    forall u :: u in ns && Matches(tail, u, t) ==> Depth(u) <= Depth(s)
  }

  /** A search may leave the wildcard of its level to its caller. */
  ghost predicate Found(tail: bool, ns: Names, t: Bytes, own: nat, r: nat) {
    MostSpecific(tail, ns, t, if r == 0 then 0 else own, r)
  }

  // ---------- what a level is made of ----------

  /** A name goes on below label l. */
  ghost predicate Below(ns: Names, l: Bytes) {
    exists s :: s in ns && l + [DOT] < s
  }

  ghost predicate Labelled(ns: Names, l: Bytes) {
    l in ns || l + [DOT] in ns || Below(ns, l)
  }

  /** The value of the name that ends with label l. */
  ghost function Own(ns: Names, l: Bytes): nat {
    if l in ns then ns[l] else if l + [DOT] in ns then ns[l + [DOT]] else 0
  }

  /** sub has what follows label l. */
  ghost predicate IsSub(ns: Names, l: Bytes, sub: Names) {
    && (forall u :: u in sub ==> u != [] && l + [DOT] + u in ns && ns[l + [DOT] + u] == sub[u])
    && (forall s :: s in ns && l + [DOT] < s ==> s[|l| + 1..] in sub)
  }

  /** Values are non-NULL data pointers, and no name is there both with and without its dot. */
  ghost predicate Proper(ns: Names) {
    forall s :: s in ns ==> ns[s] > 0 && ns[s] % 4 == 0 && s + [DOT] !in ns
  }

  /** v is the tagged value for label l; hashes it points to are below address `top`. */
  ghost predicate Entry(levels: map<nat, Level>, of: map<nat, Names>, ns: Names, l: Bytes, v: nat, top: nat) {
    if Below(ns, l) then
      var p := v - v % 4;
      && v % 4 == (if l in ns then 2 else 3)
      && p in levels && p in of && 0 < p < top
      && IsSub(ns, l, of[p]) && levels[p].value == Own(ns, l)
    else v == if l in ns then ns[l] else Own(ns, l) + 1
  }

  ghost predicate LevelOk(levels: map<nat, Level>, of: map<nat, Names>, a: nat)
    requires a in levels && a in of
  {
    && Proper(of[a])
    && forall l :: DotFree(l) ==>
      var v := Lookup(levels[a].keys, l);
      if Labelled(of[a], l) then Entry(levels, of, of[a], l, v, a) else v == 0
  }

  // ---------- one step of a search ----------

  lemma MatchLabel(tail: bool, s: Bytes, t: Bytes)
    requires Matches(tail, s, t)
    ensures Label(s) == Label(t)
  {
    var l := Label(s);
    if s != t {
      if l + [DOT] <= s {
        assert t[..|l| + 1] == s[..|l| + 1] == l + [DOT];
      } else {
        assert s + [DOT] <= t;
      }
      LabelIs(t, l);
    }
  }

  lemma HasLabel(ns: Names, s: Bytes)
    requires s in ns
    ensures Labelled(ns, Label(s))
  {
    assert s == Label(s) || s == Label(s) + [DOT] || Label(s) + [DOT] < s;
  }

  lemma NoLabel(tail: bool, ns: Names, t: Bytes, own: nat)
    requires !Labelled(ns, Label(t))
    ensures Found(tail, ns, t, own, own)
  {
    forall s | s in ns ensures !Matches(tail, s, t) {
      if Matches(tail, s, t) {
        MatchLabel(tail, s, t);
        HasLabel(ns, s);
      }
    }
  }

  /** Names of a tail hash do not end with a dot. */
  ghost predicate Kind(tail: bool, ns: Names) {
    tail ==> forall s :: s in ns ==> !EndsDot(s)
  }

  /** The host ends with its label, or no name goes on below it. */
  lemma Here(tail: bool, ns: Names, t: Bytes, own: nat)
    requires Proper(ns) && Kind(tail, ns)
    requires t == Label(t) || (Labelled(ns, Label(t)) && !Below(ns, Label(t)))
    ensures var l := Label(t);
      Found(tail, ns, t, own, if t == l then if !tail && l in ns then ns[l] else 0 else Own(ns, l))
  {
    var l := Label(t);
    forall s | s in ns && Matches(tail, s, t) ensures s == l || (t != l && s == l + [DOT]) {
      MatchLabel(tail, s, t);
      if t == l {
        assert |s| <= |t|;
      } else if s != l && |s| != |l| + 1 {
        assert false;
      }
    }
    if t == l {
      if !tail && l in ns {
        assert Deepest(tail, ns, t, l);
      }
    } else {
      var s := if l in ns then l else l + [DOT];
      assert Matches(tail, s, t);
      assert Deepest(tail, ns, t, s);
    }
  }

  /** Names with more labels than one match as their rests match the rest of the host. */
  lemma MatchBelow(tail: bool, l: Bytes, u: Bytes, t: Bytes)
    requires DotFree(l) && u != [] && l + [DOT] <= t
    ensures Matches(tail, l + [DOT] + u, t) <==> Matches(tail, u, t[|l| + 1..])
    ensures Depth(l + [DOT] + u) == |l| + 1 + Depth(u)
  {
    var s, w := l + [DOT] + u, t[|l| + 1..];
    assert t == l + [DOT] + w;
    assert EndsDot(s) == EndsDot(u);
    PrefixBelow(l + [DOT], u, w);
    PrefixBelow(l + [DOT], u + [DOT], w);
    assert l + [DOT] + (u + [DOT]) == s + [DOT];
    assert u == s[|l| + 1..] && w == t[|l| + 1..];
  }

  lemma PrefixBelow(p: Bytes, u: Bytes, w: Bytes)
    ensures p + u <= p + w <==> u <= w
  {
    if u <= w {
      assert w == u + w[|u|..];
      assert p + w == p + u + w[|u|..];
    }
    if p + u <= p + w {
      assert u == (p + u)[|p|..] && w == (p + w)[|p|..];
    }
  }

  /** A match ends with the host's label, or goes on below it and matches there. */
  lemma MatchSplit(tail: bool, ns: Names, sub: Names, t: Bytes, s: Bytes)
    requires Label(t) != t && IsSub(ns, Label(t), sub)
    requires s in ns && Matches(tail, s, t)
    ensures var l := Label(t);
      || s == l || s == l + [DOT]
      || (l + [DOT] < s
          && s[|l| + 1..] in sub && Matches(tail, s[|l| + 1..], t[|l| + 1..])
          && sub[s[|l| + 1..]] == ns[s] && Depth(s) == |l| + 1 + Depth(s[|l| + 1..]))
  {
    hide Label, Matches, Depth;
    var l := Label(t);
    MatchLabel(tail, s, t);
    if s != l && s != l + [DOT] {
      var u := s[|l| + 1..];
      assert s == l + [DOT] + u && l + [DOT] < s;
      MatchBelow(tail, l, u, t);
    }
  }

  lemma SubMember(tail: bool, ns: Names, sub: Names, l: Bytes, u: Bytes, t: Bytes)
    requires IsSub(ns, l, sub) && u in sub && DotFree(l) && l + [DOT] <= t
    ensures l + [DOT] + u in ns && ns[l + [DOT] + u] == sub[u]
    ensures Matches(tail, l + [DOT] + u, t) <==> Matches(tail, u, t[|l| + 1..])
    ensures Depth(l + [DOT] + u) == |l| + 1 + Depth(u)
  {
    hide Matches, Depth;
    MatchBelow(tail, l, u, t);
  }

  lemma EndsHere(tail: bool, ns: Names, t: Bytes)
    requires Kind(tail, ns) && Proper(ns) && Label(t) != t
    ensures var l := Label(t);
      && |l| == Depth(l) == Depth(l + [DOT])
      && (l in ns ==> Matches(tail, l, t) && l + [DOT] !in ns)
      && (l + [DOT] in ns ==> Matches(tail, l + [DOT], t) && l !in ns)
  {
  }

  /** Going down: what is found below the label, or else the label's own value, is the answer. */
  lemma Down(tail: bool, ns: Names, sub: Names, t: Bytes, own: nat, r: nat)
    requires Proper(ns) && Kind(tail, ns) && Label(t) != t && IsSub(ns, Label(t), sub)
    requires Found(tail, sub, t[|Label(t)| + 1..], Own(ns, Label(t)), r)
    ensures Found(tail, ns, t, own, if r != 0 then r else Own(ns, Label(t)))
  {
    hide Label, Matches, Depth, IsSub, Kind, Proper;
    var l := Label(t);
    var w := t[|l| + 1..];
    EndsHere(tail, ns, t);
    if u :| u in sub && Matches(tail, u, w) && r == sub[u] && Deepest(tail, sub, w, u) {
      SubMember(tail, ns, sub, l, u, t);
      DeepestBelow(tail, ns, sub, t, u);
      Settled(tail, ns, t, own, l + [DOT] + u);
      assert r > 0 by { PositiveValue(ns, l + [DOT] + u); }
    } else {
      forall s | s in ns && Matches(tail, s, t) ensures s == l || s == l + [DOT] {
        MatchSplit(tail, ns, sub, t, s);
      }
      if l in ns || l + [DOT] in ns {
        var s := if l in ns then l else l + [DOT];
        assert Deepest(tail, ns, t, s);
        Settled(tail, ns, t, own, s);
      }
    }
  }

  lemma PositiveValue(ns: Names, s: Bytes)
    requires Proper(ns) && s in ns
    ensures ns[s] > 0
  {
  }

  lemma Settled(tail: bool, ns: Names, t: Bytes, own: nat, s: Bytes)
    requires s in ns && Matches(tail, s, t) && Deepest(tail, ns, t, s)
    ensures MostSpecific(tail, ns, t, own, ns[s])
  {
    hide Matches, Deepest;
  }

  lemma DeepestBelow(tail: bool, ns: Names, sub: Names, t: Bytes, u: Bytes)
    requires Proper(ns) && Kind(tail, ns) && Label(t) != t && IsSub(ns, Label(t), sub)
    requires u in sub && Deepest(tail, sub, t[|Label(t)| + 1..], u)
    ensures Deepest(tail, ns, t, Label(t) + [DOT] + u)
  {
    hide Label, Matches, Depth, IsSub, Kind, Proper;
    var l := Label(t);
    EndsHere(tail, ns, t);
    SubMember(tail, ns, sub, l, u, t);
    forall s | s in ns && Matches(tail, s, t) ensures Depth(s) <= |l| + 1 + Depth(u) {
      MatchSplit(tail, ns, sub, t, s);
    }
  }

  lemma EndsThere(ns: Names, l: Bytes)
    requires Kind(true, ns) && Labelled(ns, l) && !Below(ns, l)
    ensures l in ns
  {
    assert EndsDot(l + [DOT]);
  }

  /** What follows a label is a name of the same kind. */
  lemma KindBelow(tail: bool, ns: Names, l: Bytes, sub: Names)
    requires Kind(tail, ns) && IsSub(ns, l, sub)
    ensures Kind(tail, sub)
  {
    if tail {
      forall u | u in sub ensures !EndsDot(u) {
        var s := l + [DOT] + u;
        assert s[|s| - 1] == u[|u| - 1];
      }
    }
  }

  // ---------- hashes of labels ----------

  /** ngx_hash */
  function HashStep(key: nat, c: Byte): nat {
    (key * 31 + c) % 0x1_0000_0000_0000_0000
  }

  /** ngx_hash_key; on lower-case labels also ngx_hash_key_lc. */
  function HashKey(s: Bytes): nat {
    if s == [] then 0 else HashStep(HashKey(s[..|s| - 1]), s[|s| - 1])
  }

  /** The hash is a polynomial in 31, modulo the size of a word. */
  lemma HashIsPolynomial(a: Byte, b: Byte, s: Bytes, c: Byte)
    ensures HashKey([]) == 0 && HashKey([a]) == a && HashKey([a, b]) == 31 * a + b
    ensures HashKey(s + [c]) == (31 * HashKey(s) + c) % 0x1_0000_0000_0000_0000
  {
    assert (s + [c])[..|s|] == s;
    assert [a][..0] == [] && [a, b][..1] == [a];
  }

  lemma HashNext(s: Bytes, n: nat, i: nat)
    requires n <= i < |s|
    ensures HashKey(s[n..i + 1]) == HashStep(HashKey(s[n..i]), s[i])
    ensures HashKey(s[i..i]) == 0
  {
    assert s[n..i + 1][..i - n] == s[n..i];
  }

  /** What HashTable.Init and HashTable.Hash.Find ask of the keys of a level. */
  ghost predicate LevelKeys(keys: seq<Key>) {
    forall j :: 0 <= j < |keys| ==>
      && !keys[j].dropped && keys[j].value > 0
      && LowerAll(keys[j].name) == keys[j].name && keys[j].hash == HashKey(keys[j].name)
  }

  /** So HashTable.Hash.Find, given a label and its hash, finds Lookup's value in a level. */
  lemma LevelSearch(keys: seq<Key>, l: Bytes)
    requires LevelKeys(keys)
    ensures HashOf(keys, l, HashKey(l)) && NoNulls(keys)
  {
    forall k | k in keys ensures !k.dropped && k.value != 0 && (LowerAll(k.name) == l ==> k.hash == HashKey(l)) {
      var j :| 0 <= j < |keys| && keys[j] == k;
    }
  }

  // ---------- tags ----------

  predicate BelowBit(v: nat) {
    v / 2 % 2 == 1
  }

  predicate OnlyBit(v: nat) {
    v % 2 == 1
  }

  function Untagged(v: nat): nat {
    v - v % 4
  }

  /** What the tags of a level's value tell a search. */
  lemma ReadTags(levels: map<nat, Level>, of: map<nat, Names>, a: nat, l: Bytes)
    requires a in levels && a in of && LevelOk(levels, of, a) && DotFree(l)
    ensures var v, p, ns := Lookup(levels[a].keys, l), Untagged(Lookup(levels[a].keys, l)), of[a];
      && Proper(ns)
      && (v == 0 <==> !Labelled(ns, l))
      && (BelowBit(v) ==> p in levels && p in of && p < a && IsSub(ns, l, of[p]) && levels[p].value == Own(ns, l))
      && (v != 0 && !BelowBit(v) ==> !Below(ns, l) && p == Own(ns, l))
      && (v != 0 ==> (OnlyBit(v) <==> l !in ns))
  {
    hide IsSub, Proper, Labelled, Below, Own, BelowBit, OnlyBit, Lookup;
    var v, ns := Lookup(levels[a].keys, l), of[a];
    TagBits(v);
    OwnValue(ns, l);
    if Labelled(ns, l) {
      assert Entry(levels, of, ns, l, v, a);
    }
  }

  lemma TagBits(v: nat)
    ensures BelowBit(v) <==> v % 4 >= 2
    ensures OnlyBit(v) <==> v % 4 == 1 || v % 4 == 3
  {
    var q, r := v / 4, v % 4;
    assert v == 4 * q + r;
    assert v / 2 == 2 * q + r / 2;
    assert v % 2 == r % 2;
  }

  lemma OwnValue(ns: Names, l: Bytes)
    requires Proper(ns)
    ensures Own(ns, l) % 4 == 0 && (Labelled(ns, l) && !Below(ns, l) ==> Own(ns, l) > 0)
    ensures l in ns ==> Own(ns, l) == ns[l]
  {
    hide Below;
  }

  // ---------- the order of names ----------

  /** ngx_dns_strcmp on lower-case names: a dot counts as a space, the end of a name is lowest. */
  function Rank(c: Byte): Byte {
    if c == DOT then SPACE else c
  }

  predicate Less(s: Bytes, t: Bytes) {
    if t == [] then false
    else if s == [] then true
    else if s[0] == t[0] then Less(s[1..], t[1..])
    else Rank(s[0]) < Rank(t[0])
  }

  /** Characters of host names: above the space, and in lower case. */
  predicate Clean(s: Bytes) {
    forall i :: 0 <= i < |s| ==> s[i] > SPACE && Lower(s[i]) == s[i]
  }

  lemma {:induction false} LessBelow(p: Bytes, s: Bytes, t: Bytes)
    ensures Less(p + s, p + t) == Less(s, t)
  {
    if p == [] {
      assert p + s == s && p + t == t;
    } else {
      LessBelow(p[1..], s, t);
      assert (p + s)[1..] == p[1..] + s && (p + t)[1..] == p[1..] + t;
    }
  }

  /** Names of one label are neighbours, and the one that ends with it comes first. */
  lemma {:induction false} Between(l: Bytes, s: Bytes, m: Bytes, t: Bytes)
    requires s == l || l + [DOT] <= s
    requires l + [DOT] <= t && Less(s, m) && Less(m, t) && Clean(m) && Clean(t)
    ensures l + [DOT] <= m
  {
    if l == [] {
      assert t[0] == (l + [DOT])[0];
      assert m[0] == DOT;
      assert m[..1] == [DOT];
    } else {
      assert s[0] == l[0] && t[0] == l[0] && m[0] == l[0];
      assert l[1..] + [DOT] == (l + [DOT])[1..];
      Between(l[1..], s[1..], m[1..], t[1..]);
      assert m == [m[0]] + m[1..];
      assert m[..|l| + 1] == l + [DOT];
    }
  }

  /** Nothing that ends with the label comes after a name of that label. */
  lemma {:induction false} EndFirst(l: Bytes, s: Bytes)
    requires l <= s
    ensures !Less(s, l)
  {
    if l != [] {
      EndFirst(l[1..], s[1..]);
    }
  }

  /** What ngx_hash_wildcard_init is given: names in strictly increasing order, with data pointers. */
  ghost predicate Listed(list: seq<Name>) {
    && (forall i, j :: 0 <= i < j < |list| ==> Less(list[i].name, list[j].name))
    && (forall i :: 0 <= i < |list| ==> Clean(list[i].name) && list[i].value > 0 && list[i].value % 4 == 0)
    && (forall i, j :: 0 <= i < |list| && 0 <= j < |list| ==> list[j].name != list[i].name + [DOT])
  }

  /** The names as a map. */
  function NamesOf(list: seq<Name>): Names {
    if list == [] then map[]
    else var k := |list| - 1; NamesOf(list[..k])[list[k].name := list[k].value]
  }

  lemma {:induction false} NotLess(s: Bytes)
    ensures !Less(s, s)
  {
    if s != [] {
      NotLess(s[1..]);
    }
  }

  lemma {:induction false} NameIn(list: seq<Name>, i: nat)
    requires Listed(list) && i < |list|
    ensures list[i].name in NamesOf(list) && NamesOf(list)[list[i].name] == list[i].value
  {
    hide Less, Listed;
    var k := |list| - 1;
    if i < k {
      ListedPart(list, i, k);
      NameIn(list[..k], i);
      NotLess(list[k].name);
    }
  }

  lemma ListedPart(list: seq<Name>, i: nat, k: nat)
    requires Listed(list) && i < k < |list|
    ensures Listed(list[..k]) && Less(list[i].name, list[k].name)
  {
    hide Less, Clean;
  }

  lemma {:induction false} NameFrom(list: seq<Name>, s: Bytes) returns (i: nat)
    requires s in NamesOf(list)
    ensures i < |list| && list[i].name == s
  {
    var k := |list| - 1;
    if list[k].name == s {
      i := k;
    } else {
      i := NameFrom(list[..k], s);
    }
  }

  lemma ListedProper(list: seq<Name>)
    requires Listed(list)
    ensures Proper(NamesOf(list))
  {
    var ns := NamesOf(list);
    forall s | s in ns ensures ns[s] > 0 && ns[s] % 4 == 0 && s + [DOT] !in ns {
      var i := NameFrom(list, s);
      NameIn(list, i);
      if s + [DOT] in ns {
        var j := NameFrom(list, s + [DOT]);
      }
    }
  }

  // ---------- groups of names with one first label ----------

  /** next has the names of list without their first k characters. */
  ghost predicate IsCut(next: seq<Name>, list: seq<Name>, k: nat) {
    && |next| == |list|
    && forall j :: 0 <= j < |list| ==>
      k < |list[j].name| && next[j] == Name(list[j].name[k..], list[j].value)
  }

  /** Where the names of a group that go on below the label begin. */
  function GroupStart(list: seq<Name>, n: nat): nat
    requires n < |list|
  {
    if |list[n].name| <= |Label(list[n].name)| + 1 then n + 1 else n
  }

  /** The names from n up to i are those of the label of names[n]; next is what follows the label. */
  ghost predicate IsGroup(list: seq<Name>, n: nat, i: nat, next: seq<Name>)
    requires n < |list|
  {
    var l := Label(list[n].name);
    && n < i <= |list|
    && (forall j :: n < j < i ==> l + [DOT] <= list[j].name)
    && (i < |list| ==> !(l + [DOT] <= list[i].name))
    && IsCut(next, list[GroupStart(list, n)..i], |l| + 1)
  }

  /** Later names have other labels. */
  lemma GroupEnds(list: seq<Name>, n: nat, i: nat, next: seq<Name>, j: nat)
    requires Listed(list) && n < |list| && IsGroup(list, n, i, next) && i <= j < |list|
    ensures Label(list[j].name) != Label(list[n].name)
  {
    hide IsCut;
    var l := Label(list[n].name);
    assert Less(list[n].name, list[j].name);
    if Label(list[j].name) == l {
      if list[j].name == l {
        EndFirst(l, list[n].name);
      } else if i < j {
        assert Less(list[n].name, list[i].name) && Less(list[i].name, list[j].name);
        Between(l, list[n].name, list[i].name, list[j].name);
      }
    }
  }

  /** The names of a group, cut, are in order again. */
  lemma CutListed(list: seq<Name>, part: seq<Name>, m: nat, i: nat, p: Bytes)
    requires Listed(list) && m <= i <= |list| && IsCut(part, list[m..i], |p|)
    requires forall j :: m <= j < i ==> p <= list[j].name
    ensures Listed(part)
  {
    hide Clean, Less;
    forall j | 0 <= j < |part| ensures list[m + j].name == p + part[j].name && Clean(part[j].name)
      && part[j].value > 0 && part[j].value % 4 == 0 {
      assert list[m..i][j] == list[m + j];
      assert list[m + j].name == p + part[j].name;
      CleanBelow(p, part[j].name);
    }
    forall j, k | 0 <= j < k < |part| ensures Less(part[j].name, part[k].name) {
      assert Less(list[m + j].name, list[m + k].name);
      LessBelow(p, part[j].name, part[k].name);
    }
    forall j, k | 0 <= j < |part| && 0 <= k < |part| ensures part[k].name != part[j].name + [DOT] {
      assert list[m + k].name != list[m + j].name + [DOT];
      assert p + (part[j].name + [DOT]) == list[m + j].name + [DOT];
    }
  }

  lemma CutMember(list: seq<Name>, n: nat, i: nat, next: seq<Name>, k: nat)
    requires n < |list| && IsGroup(list, n, i, next) && k < |next|
    ensures var m, l := GroupStart(list, n), Label(list[n].name);
      && m + k < i && |next| == i - m
      && list[m + k].name == l + [DOT] + next[k].name && list[m + k].value == next[k].value
      && next[k].name != []
  {
    hide Label;
    var m, l := GroupStart(list, n), Label(list[n].name);
    assert list[m..i][k] == list[m + k];
    assert l + [DOT] <= list[m + k].name;
  }

  lemma GroupListed(list: seq<Name>, n: nat, i: nat, next: seq<Name>)
    requires Listed(list) && n < |list| && IsGroup(list, n, i, next)
    ensures Listed(next)
  {
    hide Listed, Label;
    CutListed(list, next, GroupStart(list, n), i, Label(list[n].name) + [DOT]);
  }

  /** Each name of the list is its group's first, goes on below the label, or has another label. */
  lemma GroupSplit(list: seq<Name>, n: nat, i: nat, next: seq<Name>, t: Bytes)
    requires Listed(list) && n < |list| && IsGroup(list, n, i, next) && Listed(next)
    requires forall j :: 0 <= j < n ==> Label(list[j].name) != Label(list[n].name)
    requires t in NamesOf(list)
    ensures var l := Label(list[n].name);
      || t == list[n].name || Label(t) != l
      || (l + [DOT] < t && t[|l| + 1..] in NamesOf(next))
    ensures var l := Label(list[n].name);
      t == list[n].name && l + [DOT] < t ==> t[|l| + 1..] in NamesOf(next)
  {
    hide Listed, Label, IsGroup, IsCut, NamesOf;
    var l := Label(list[n].name);
    var m := GroupStart(list, n);
    var j := NameFrom(list, t);
    if j >= i {
      GroupEnds(list, n, i, next, j);
    } else if j >= m {
      GroupLength(list, n, i, next);
      CutMember(list, n, i, next, j - m);
      NameIn(next, j - m);
      assert t[|l| + 1..] == next[j - m].name;
    }
  }

  lemma GroupLength(list: seq<Name>, n: nat, i: nat, next: seq<Name>)
    requires n < |list| && IsGroup(list, n, i, next)
    ensures n < i <= |list| && |next| == i - GroupStart(list, n)
  {
  }

  /** What follows the label of a group is what goes on below it. */
  lemma GroupSub(list: seq<Name>, n: nat, i: nat, next: seq<Name>)
    requires Listed(list) && n < |list| && IsGroup(list, n, i, next)
    requires forall j :: 0 <= j < n ==> Label(list[j].name) != Label(list[n].name)
    ensures Listed(next) && IsSub(NamesOf(list), Label(list[n].name), NamesOf(next))
  {
    hide Listed, Label, IsGroup, IsCut, NamesOf;
    GroupListed(list, n, i, next);
    var l, ns := Label(list[n].name), NamesOf(list);
    forall u | u in NamesOf(next)
      ensures u != [] && l + [DOT] + u in ns && ns[l + [DOT] + u] == NamesOf(next)[u]
    {
      GroupTail(list, n, i, next, u);
    }
    forall t | t in ns && l + [DOT] < t ensures t[|l| + 1..] in NamesOf(next) {
      LabelIs(t, l);
      GroupSplit(list, n, i, next, t);
    }
  }

  lemma GroupTail(list: seq<Name>, n: nat, i: nat, next: seq<Name>, u: Bytes)
    requires Listed(list) && n < |list| && IsGroup(list, n, i, next) && Listed(next) && u in NamesOf(next)
    ensures var s := Label(list[n].name) + [DOT] + u;
      u != [] && s in NamesOf(list) && NamesOf(list)[s] == NamesOf(next)[u]
  {
    hide Listed, Label, IsGroup, IsCut, NamesOf, GroupStart;
    GroupLength(list, n, i, next);
    var k := NameFrom(next, u);
    NameIn(next, k);
    CutMember(list, n, i, next, k);
    NameIn(list, GroupStart(list, n) + k);
  }

  lemma GroupBelow(list: seq<Name>, n: nat, i: nat, next: seq<Name>)
    requires Listed(list) && n < |list| && IsGroup(list, n, i, next)
    requires forall j :: 0 <= j < n ==> Label(list[j].name) != Label(list[n].name)
    ensures next != [] <==> Below(NamesOf(list), Label(list[n].name))
  {
    hide Listed, IsGroup, IsCut, NamesOf, Label, Below, IsSub;
    GroupSub(list, n, i, next);
    GroupLength(list, n, i, next);
    var l, ns := Label(list[n].name), NamesOf(list);
    if next != [] {
      CutMember(list, n, i, next, 0);
      NameIn(list, GroupStart(list, n));
      BelowBy(ns, l, list[GroupStart(list, n)].name);
    }
    if Below(ns, l) {
      var u := BelowOf(ns, l, NamesOf(next));
      var k := NameFrom(next, u);
    }
  }

  lemma BelowBy(ns: Names, l: Bytes, s: Bytes)
    requires s in ns && l + [DOT] < s
    ensures Below(ns, l)
  {
  }

  lemma BelowOf(ns: Names, l: Bytes, sub: Names) returns (u: Bytes)
    requires Below(ns, l) && IsSub(ns, l, sub)
    ensures u in sub
  {
    var s :| s in ns && l + [DOT] < s;
    u := s[|l| + 1..];
  }

  /** Only the first name of a group can end with the label. */
  lemma GroupFirst(list: seq<Name>, n: nat, i: nat, next: seq<Name>, t: Bytes)
    requires Listed(list) && n < |list| && IsGroup(list, n, i, next)
    requires forall j :: 0 <= j < n ==> Label(list[j].name) != Label(list[n].name)
    requires t == Label(list[n].name) || t == Label(list[n].name) + [DOT]
    ensures t in NamesOf(list) <==> t == list[n].name
    ensures t in NamesOf(list) ==> NamesOf(list)[t] == list[n].value
  {
    hide Listed, IsGroup, IsCut, NamesOf, Label;
    NameIn(list, n);
    if t in NamesOf(list) {
      GroupListed(list, n, i, next);
      LabelIs(t, Label(list[n].name));
      GroupSplit(list, n, i, next, t);
    }
  }

  lemma GroupOwn(list: seq<Name>, n: nat, i: nat, next: seq<Name>)
    requires Listed(list) && n < |list| && IsGroup(list, n, i, next)
    requires forall j :: 0 <= j < n ==> Label(list[j].name) != Label(list[n].name)
    ensures var l, ns, s := Label(list[n].name), NamesOf(list), list[n].name;
      (l in ns <==> l == s) && Own(ns, l) == if |s| <= |l| + 1 then list[n].value else 0
  {
    hide Listed, IsGroup, NamesOf, Label;
    var l, s := Label(list[n].name), list[n].name;
    GroupFirst(list, n, i, next, l);
    GroupFirst(list, n, i, next, l + [DOT]);
    assert |s| <= |l| + 1 <==> s == l || s == l + [DOT];
  }

  lemma CleanBelow(p: Bytes, s: Bytes)
    requires Clean(p + s)
    ensures Clean(s)
  {
    forall i | 0 <= i < |s| ensures s[i] > SPACE && Lower(s[i]) == s[i] {
      assert (p + s)[|p| + i] == s[i];
    }
  }

  // ---------- growing the trie ----------

  ghost predicate Extends<T>(before: map<nat, T>, after: map<nat, T>) {
    forall a :: a in before ==> a in after && after[a] == before[a]
  }

  lemma EntryStays(l0: map<nat, Level>, of0: map<nat, Names>, l1: map<nat, Level>, of1: map<nat, Names>,
                   ns: Names, l: Bytes, v: nat, top: nat, top': nat)
    requires Entry(l0, of0, ns, l, v, top) && Extends(l0, l1) && Extends(of0, of1) && top <= top'
    ensures Entry(l1, of1, ns, l, v, top')
  {
    hide Below, Own, IsSub;
  }

  lemma LevelStays(l0: map<nat, Level>, of0: map<nat, Names>, l1: map<nat, Level>, of1: map<nat, Names>, a: nat)
    requires a in l0 && a in of0 && LevelOk(l0, of0, a) && Extends(l0, l1) && Extends(of0, of1)
    ensures LevelOk(l1, of1, a)
  {
    hide Entry, Labelled, Lookup, DotFree, Proper;
    forall l | DotFree(l) && Labelled(of0[a], l) ensures Entry(l1, of1, of1[a], l, Lookup(l1[a].keys, l), a) {
      EntryStays(l0, of0, l1, of1, of0[a], l, Lookup(l0[a].keys, l), a, a);
    }
  }

  /** The first n names have been entered into the keys. */
  ghost predicate LabelledBy(list: seq<Name>, n: nat, l: Bytes)
    requires n <= |list|
  {
    exists j :: 0 <= j < n && Label(list[j].name) == l
  }

  ghost predicate Entered(
      levels: map<nat, Level>, of: map<nat, Names>, list: seq<Name>, n: nat, keys: seq<Key>, top: nat)
    requires n <= |list|
  {
    && LevelKeys(keys)
    && forall l :: DotFree(l) ==>
      var v := Lookup(keys, l);
      if LabelledBy(list, n, l) then v > 0 && Entry(levels, of, NamesOf(list), l, v, top) else v == 0
  }

  lemma {:induction false} LookupLast(keys: seq<Key>, k: Key, j: nat, l: Bytes)
    requires LevelKeys(keys + [k]) && j <= |keys|
    ensures LookupFrom(keys + [k], j, l) ==
      if LookupFrom(keys, j, l) != 0 then LookupFrom(keys, j, l) else if k.name == l then k.value else 0
    decreases |keys| - j
  {
    if j < |keys| {
      LookupLast(keys, k, j + 1, l);
      assert (keys + [k])[j] == keys[j];
    } else {
      assert (keys + [k])[j] == k;
      assert LookupFrom(keys + [k], j + 1, l) == 0;
    }
  }

  /** No name from n on has the label of a name before n. */
  ghost predicate Apart(list: seq<Name>, n: nat) {
    forall j, k :: 0 <= j < n <= k < |list| ==> Label(list[j].name) != Label(list[k].name)
  }

  lemma GroupLabel(list: seq<Name>, n: nat, i: nat, next: seq<Name>, j: nat)
    requires n < |list| && IsGroup(list, n, i, next) && n <= j < i
    ensures i <= |list| && Label(list[j].name) == Label(list[n].name)
  {
    hide IsCut;
    if n < j {
      LabelIs(list[j].name, Label(list[n].name));
    }
  }

  lemma ApartNext(list: seq<Name>, n: nat, i: nat, next: seq<Name>)
    requires Listed(list) && n < |list| && IsGroup(list, n, i, next) && Apart(list, n)
    ensures Apart(list, i)
  {
    hide Listed, Label, IsGroup;
    forall j, k | 0 <= j < i <= k < |list| ensures Label(list[j].name) != Label(list[k].name) {
      GroupEnds(list, n, i, next, k);
      if n <= j {
        GroupLabel(list, n, i, next, j);
      } else {
        GroupLength(list, n, i, next);
      }
    }
  }

  lemma LabelledNext(list: seq<Name>, n: nat, i: nat, next: seq<Name>, l: Bytes)
    requires n < |list| && IsGroup(list, n, i, next) && i <= |list|
    ensures LabelledBy(list, i, l) <==> LabelledBy(list, n, l) || l == Label(list[n].name)
  {
    hide Label, IsGroup;
    GroupLength(list, n, i, next);
    if j :| 0 <= j < i && Label(list[j].name) == l {
      if n <= j {
        GroupLabel(list, n, i, next, j);
      }
    }
  }

  /** Entering the key of a group. */
  lemma EnteredNext(levels: map<nat, Level>, of: map<nat, Names>, list: seq<Name>, n: nat, i: nat, next: seq<Name>,
                    keys: seq<Key>, k: Key, top: nat)
    requires n < |list| && IsGroup(list, n, i, next) && i <= |list| && Apart(list, n)
    requires Entered(levels, of, list, n, keys, top)
    requires k.name == Label(list[n].name) && LevelKeys([k])
    requires Entry(levels, of, NamesOf(list), k.name, k.value, top)
    ensures Entered(levels, of, list, i, keys + [k], top)
  {
    hide Entry, Label, IsGroup, LabelledBy, Lookup;
    assert LevelKeys(keys + [k]) by { LevelKeysNext(keys, k); }
    forall l | DotFree(l)
      ensures var v := Lookup(keys + [k], l);
        if LabelledBy(list, i, l) then v > 0 && Entry(levels, of, NamesOf(list), l, v, top) else v == 0
    {
      LabelledNext(list, n, i, next, l);
      LookupNext(keys, k, l);
      if l == k.name {
        NewLabel(list, n);
      }
    }
  }

  lemma NewLabel(list: seq<Name>, n: nat)
    requires n < |list| && Apart(list, n)
    ensures !LabelledBy(list, n, Label(list[n].name))
  {
  }

  lemma LevelKeysNext(keys: seq<Key>, k: Key)
    requires LevelKeys(keys) && LevelKeys([k])
    ensures LevelKeys(keys + [k]) && k.value > 0
  {
    assert [k][0] == k;
  }

  lemma LookupNext(keys: seq<Key>, k: Key, l: Bytes)
    requires LevelKeys(keys + [k])
    ensures Lookup(keys + [k], l) ==
      if Lookup(keys, l) != 0 then Lookup(keys, l) else if k.name == l then k.value else 0
    ensures k.value > 0
  {
    LookupLast(keys, k, 0, l);
    assert (keys + [k])[|keys|] == k;
  }

  lemma EnteredStays(l0: map<nat, Level>, of0: map<nat, Names>, l1: map<nat, Level>, of1: map<nat, Names>,
                     list: seq<Name>, n: nat, keys: seq<Key>, top: nat, top': nat)
    requires n <= |list| && Entered(l0, of0, list, n, keys, top)
    requires Extends(l0, l1) && Extends(of0, of1) && top <= top'
    ensures Entered(l1, of1, list, n, keys, top')
  {
    hide Entry, Extends, LabelledBy, Lookup, LevelKeys;
    forall l | DotFree(l) && LabelledBy(list, n, l) ensures Entry(l1, of1, NamesOf(list), l, Lookup(keys, l), top') {
      EntryStays(l0, of0, l1, of1, NamesOf(list), l, Lookup(keys, l), top, top');
    }
  }

  /** With all names entered the keys make a level. */
  lemma EnteredAll(levels: map<nat, Level>, of: map<nat, Names>, list: seq<Name>, keys: seq<Key>, a: nat)
    requires Listed(list) && Entered(levels, of, list, |list|, keys, a)
    requires a in levels && levels[a].keys == keys && a in of && of[a] == NamesOf(list)
    ensures LevelOk(levels, of, a)
  {
    hide Entry, Label, Labelled, LabelledBy, Lookup, LevelKeys, NamesOf, Proper, Listed;
    ListedProper(list);
    forall l | DotFree(l) ensures LabelledBy(list, |list|, l) <==> Labelled(of[a], l) {
      AllLabels(list, l);
    }
  }

  lemma AllLabels(list: seq<Name>, l: Bytes)
    requires Listed(list) && DotFree(l)
    ensures LabelledBy(list, |list|, l) <==> Labelled(NamesOf(list), l)
  {
    hide Label, NamesOf, Listed;
    var ns := NamesOf(list);
    if j :| 0 <= j < |list| && Label(list[j].name) == l {
      NameIn(list, j);
      HasLabel(ns, list[j].name);
    }
    if s :| s in ns && (s == l || l + [DOT] <= s) {
      LabelIs(s, l);
      var i := NameFrom(list, s);
    }
  }

  lemma NotPointedTo(l0: map<nat, Level>, l1: map<nat, Level>, of: map<nat, Names>, b: nat, a: nat)
    requires b in l0 && b in of && LevelOk(l0, of, b) && b <= a
    requires l1.Keys == l0.Keys && forall c :: c in l0 ==> l1[c].keys == l0[c].keys && (c != a ==> l1[c] == l0[c])
    ensures LevelOk(l1, of, b)
  {
    hide Below, Labelled, Own, IsSub, Lookup, DotFree, Proper;
  }

  lemma GroupBound(list: seq<Name>, n: nat, i: nat, next: seq<Name>, bound: nat)
    requires Listed(list) && n < |list| && IsGroup(list, n, i, next)
    requires DataPointers(list, bound)
    ensures bound > 0 && DataPointers(next, bound - 1) && |next| <= |list|
    ensures list[n].value > 0 && list[n].value % 4 == 0 && Listed(next)
  {
    hide Label, IsGroup;
    GroupListed(list, n, i, next);
    assert |list[n].name| < bound;
    GroupLength(list, n, i, next);
    forall j | 0 <= j < |next| ensures |next[j].name| < bound - 1 && next[j].value < MEMORY {
      CutMember(list, n, i, next, j);
      GroupLength(list, n, i, next);
    }
  }

  lemma LowerClean(s: Bytes, w: nat)
    requires Clean(s) && w <= |s|
    ensures LowerAll(s[..w]) == s[..w]
  {
  }

  lemma KeyOk(list: seq<Name>, n: nat, k: Key)
    requires Listed(list) && n < |list| && k.name == Label(list[n].name) && !k.dropped
    requires k.hash == HashKey(k.name) && k.value > 0
    ensures LevelKeys([k])
  {
    LowerClean(list[n].name, First(list[n].name));
  }

  /** The value given to a group's label is the one the label should have. */
  lemma GroupEntry(levels: map<nat, Level>, of: map<nat, Names>, list: seq<Name>, n: nat, i: nat, next: seq<Name>,
                   v: nat, top: nat)
    requires Listed(list) && n < |list| && IsGroup(list, n, i, next) && Apart(list, n)
    requires var s, l := list[n].name, Label(list[n].name);
      if next != [] then
        var p := v - if s == l then 2 else 3;
        && 0 < p < top && p % 4 == 0 && p in levels && p in of && of[p] == NamesOf(next)
        && levels[p].value == if |s| == |l| + (if s == l then 0 else 1) then list[n].value else 0
      else v == list[n].value + if s == l then 0 else 1
    ensures Entry(levels, of, NamesOf(list), Label(list[n].name), v, top)
  {
    hide Listed, IsGroup, IsSub, Below, NamesOf, Own;
    NameIn(list, n);
    GroupLength(list, n, i, next);
    GroupSub(list, n, i, next);
    GroupBelow(list, n, i, next);
    GroupOwn(list, n, i, next);
  }

  lemma NothingEntered(levels: map<nat, Level>, of: map<nat, Names>, list: seq<Name>, top: nat)
    ensures Entered(levels, of, list, 0, [], top) && Apart(list, 0)
  {
  }

  lemma EnteredKeys(levels: map<nat, Level>, of: map<nat, Names>, list: seq<Name>, keys: seq<Key>, top: nat)
    requires Entered(levels, of, list, |list|, keys, top)
    ensures LevelKeys(keys)
  {
  }

  // ---------- the trie ----------

  /** The first loop: the length of the first label, and whether a dot follows. */
  method ScanLabel(s: Bytes) returns (len: nat, dot: bool)
    ensures len == |Label(s)| && s[..len] == Label(s) && (dot <==> len < |s|)
  {
    len, dot := 0, false;
    while len < |s|
      invariant len <= |s| && DotFree(s[..len]) && !dot
    {
      if s[len] == DOT {
        dot := true;
        break;
      }
      len := len + 1;
    }
    FirstLabel(s, len);
  }

  /** The loop that gathers the rests of the names of one label. */
  method Gather(list: seq<Name>, n: nat, width: nat, dot: bool) returns (next: seq<Name>, i: nat)
    requires Listed(list) && n < |list|
    requires width == |Label(list[n].name)| && (dot <==> width < |list[n].name|)
    ensures IsGroup(list, n, i, next)
  {
    hide Listed, Label, IsCut;
    var s := list[n].name;
    var dotLen := width + 1;
    var len := if dot then width + 1 else width;
    next := [];
    if |s| != len {
      next := [Name(s[len..], list[n].value)];
    }
    i := n + 1;
    ghost var l := Label(s);
    CutFirst(list, n, next, |l| + 1);
    while i < |list|
      invariant n < i <= |list|
      invariant forall j :: n < j < i ==> l + [DOT] <= list[j].name
      invariant IsCut(next, list[GroupStart(list, n)..i], |l| + 1)
    {
      OtherName(list, n, i);
      if !(s[..len] <= list[i].name) {
        break;
      }
      if !dot && |list[i].name| > len && list[i].name[len] != DOT {
        break;
      }
      CutNext(list, GroupStart(list, n), i, next, dotLen);
      next := next + [Name(list[i].name[dotLen..], list[i].value)];
      i := i + 1;
    }
  }

  lemma CutFirst(list: seq<Name>, n: nat, next: seq<Name>, k: nat)
    requires n < |list| && k == |Label(list[n].name)| + 1
    requires next == if |list[n].name| <= k then [] else [Name(list[n].name[k..], list[n].value)]
    ensures IsCut(next, list[GroupStart(list, n)..n + 1], k)
  {
    hide Label;
  }

  lemma CutNext(list: seq<Name>, m: nat, i: nat, next: seq<Name>, k: nat)
    requires m <= i < |list| && IsCut(next, list[m..i], k) && k < |list[i].name|
    ensures IsCut(next + [Name(list[i].name[k..], list[i].value)], list[m..i + 1], k)
  {
    assert list[m..i + 1] == list[m..i] + [list[i]];
  }

  lemma OtherName(list: seq<Name>, n: nat, i: nat)
    requires Listed(list) && n < i < |list|
    ensures var s, t, l := list[n].name, list[i].name, Label(list[n].name);
      && t != s && t != l
      && (s == l ==> (l + [DOT] <= t <==> s <= t && (|t| > |s| ==> t[|s|] == DOT)))
      && (s != l ==> l + [DOT] == s[..|l| + 1])
      && (l + [DOT] <= t ==> |t| > |l| + 1)
  {
    hide Label, First, Less, Clean;
    var s, t, l := list[n].name, list[i].name, Label(list[n].name);
    assert Less(s, t);
    NotLess(s);
    EndFirst(l, s);
    if s != l && t == l + [DOT] {
      EndFirst(t, s);
    }
  }

  /** The last label of a host and its hash. */
  method LastDot(name: Bytes) returns (n: nat, key: nat)
    ensures n <= |name| && DotFree(name[n..]) && (n > 0 ==> name[n - 1] == DOT)
    ensures key == HashKey(name[n..])
  {
    n := |name|;
    while n > 0
      invariant n <= |name| && forall i :: n <= i < |name| ==> name[i] != DOT
    {
      if name[n - 1] == DOT {
        break;
      }
      n := n - 1;
    }
    key := 0;
    assert name[n..n] == [];
    for i := n to |name|
      invariant key == HashKey(name[n..i])
    {
      HashNext(name, n, i);
      key := HashStep(key, name[i]);
    }
    assert name[n..|name|] == name[n..];
  }

  /** The first label of a host and its hash. */
  method FirstDot(name: Bytes) returns (i: nat, key: nat)
    ensures i == |Label(name)| && name[..i] == Label(name) && key == HashKey(name[..i])
  {
    key, i := 0, 0;
    while i < |name|
      invariant i <= |name| && DotFree(name[..i]) && key == HashKey(name[..i])
    {
      if name[i] == DOT {
        break;
      }
      HashNext(name, 0, i);
      key := HashStep(key, name[i]);
      i := i + 1;
    }
    FirstLabel(name, i);
  }

  /** The keys `fits` says yes to are such that ngx_hash_init makes a hash of them, with its settings. */
  ghost predicate Fitting(fits: seq<Key> -> bool, maxSize: nat, bucketSize: nat, line: nat)
    requires Granule(line)
  {
    forall ks :: fits(ks) ==> maxSize > 0 && NamesFit(ks, bucketSize) && InRange(ks, maxSize, bucketSize, line)
  }

  /** Keys of a level for at most n names shorter than `bound`. */
  ghost predicate Tried(ks: seq<Key>, n: nat, bound: nat) {
    LevelKeys(ks) && |ks| <= n && forall j :: 0 <= j < |ks| ==> |ks[j].name| < bound && ks[j].value < MEMORY
  }

  /** Some level was refused: it did not fit, or there was no memory for it. */
  ghost predicate Refused(fits: seq<Key> -> bool, n: nat, bound: nat) {
    exists ks :: Tried(ks, n, bound) && !fits(ks)
  }

  lemma NotTaken(fits: seq<Key> -> bool, ks: seq<Key>, n: nat, bound: nat)
    requires LevelKeys(ks) && |ks| <= n && !fits(ks)
    requires forall j :: 0 <= j < |ks| ==> |ks[j].name| < bound && ks[j].value < MEMORY
    ensures Refused(fits, n, bound)
  {
    hide LevelKeys;
    assert Tried(ks, n, bound);
  }

  lemma PointerAt(list: seq<Name>, n: nat, bound: nat)
    requires DataPointers(list, bound) && n < |list|
    ensures |list[n].name| < bound && list[n].value < MEMORY
  {
  }

  lemma RefusedBelow(fits: seq<Key> -> bool, n: nat, m: nat, bound: nat)
    requires Refused(fits, n, bound) && n <= m
    ensures Refused(fits, m, bound + 1)
  {
    var ks :| Tried(ks, n, bound) && !fits(ks);
    assert Tried(ks, m, bound + 1);
  }

  ghost predicate DataPointers(list: seq<Name>, bound: nat) {
    forall j :: 0 <= j < |list| ==> |list[j].name| < bound && list[j].value < MEMORY
  }

  lemma Addresses()
    ensures Pow256(PTR_SIZE) == MEMORY
  {
    assert Pow256(4) == 0x1_0000_0000;
  }

  class Trie {
    const maxSize: nat                // the settings of the hashes
    const bucketSize: nat
    const line: nat
    var levels: map<nat, Level>       // by address
    var hashes: map<nat, Hash>        // the hash of each level
    var brk: nat                      // where the pool allocates next
    ghost var of: map<nat, Names>     // the names a level was built from

    ghost predicate Valid()
      reads this
    {
      && brk % 4 == 0 && 0 < brk <= MEMORY && levels.Keys == of.Keys && Granule(line)
      && forall a :: a in levels ==>
        0 < a && a + SIZE <= brk && a % 4 == 0 && LevelOk(levels, of, a) && LevelKeys(levels[a].keys)
    }

    /** Every level's hash holds its keys. */
    ghost predicate Packed()
      reads this, hashes.Values, set h: Hash | h in hashes.Values :: h.mem
    {
      && Granule(line) && hashes.Keys == levels.Keys
      && forall a :: a in levels ==> hashes[a].Holds(levels[a].keys, line)
    }

    constructor (maxSize: nat, bucketSize: nat, line: nat)
      requires Granule(line)
      ensures Valid() && Packed() && levels == map[]
      ensures this.maxSize == maxSize && this.bucketSize == bucketSize && this.line == line
    {
      this.maxSize, this.bucketSize, this.line := maxSize, bucketSize, line;
      levels, hashes, of, brk := map[], map[], map[], SIZE;
    }

    /** The levels there were are as they were. */
    twostate predicate Kept()
      reads this
    {
      Extends(old(levels), levels) && Extends(old(of), of) && old(brk) <= brk
    }

    /** ngx_hash_init of keys that fit. */
    method Pack(keys: seq<Key>, block: nat, ghost fits: seq<Key> -> bool) returns (h: Hash)
      requires Granule(line) && block > 0 && Fitting(fits, maxSize, bucketSize, line) && fits(keys)
      requires LevelKeys(keys) && forall j :: 0 <= j < |keys| ==> keys[j].value < MEMORY
      ensures h.Holds(keys, line)
    {
      hide NamesFit, InRange, Hash.Holds;
      Addresses();
      forall k | k in keys ensures 0 < k.value < Pow256(PTR_SIZE) {
        var j :| 0 <= j < |keys| && keys[j] == k;
      }
      var r := Init(keys, maxSize, bucketSize, line, block, true, true, true);
      h := r.value;
    }

    /** ngx_hash_init gives a level for these keys, at the next address of the pool. */
    method AddLevel(keys: seq<Key>, ghost list: seq<Name>, ghost fits: seq<Key> -> bool) returns (a: nat)
      requires Valid() && Packed() && Listed(list) && LevelKeys(keys) && brk + SIZE <= MEMORY
      requires Entered(levels, of, list, |list|, keys, brk)
      requires Fitting(fits, maxSize, bucketSize, line) && fits(keys)
      requires forall j :: 0 <= j < |keys| ==> keys[j].value < MEMORY
      modifies this
      ensures Valid() && Packed() && Kept()
      ensures a in levels && a !in old(levels) && a + SIZE == brk
      ensures levels[a] == Level(keys, 0) && of[a] == NamesOf(list)
    {
      hide LevelOk, LevelKeys, Entered, Listed, NamesOf, Fitting, Packed, Hash.Holds, Extends;
      var h := Pack(keys, brk, fits);
      a := Enter(keys, h, list);
    }

    method Enter(keys: seq<Key>, h: Hash, ghost list: seq<Name>) returns (a: nat)
      requires Valid() && Packed() && Listed(list) && LevelKeys(keys) && brk + SIZE <= MEMORY
      requires Entered(levels, of, list, |list|, keys, brk) && h.Holds(keys, line)
      modifies this
      ensures Valid() && Packed() && Kept() && hashes == old(hashes)[a := h]
      ensures a in levels && a !in old(levels) && a + SIZE == brk
      ensures levels[a] == Level(keys, 0) && of[a] == NamesOf(list)
    {
      hide LevelOk, LevelKeys, Entered, Listed, NamesOf, Hash.Holds, Extends;
      a := brk;
      LevelAdded(keys, list);
      levels, of, brk := levels[a := Level(keys, 0)], of[a := NamesOf(list)], brk + SIZE;
      hashes := hashes[a := h];
    }

    lemma LevelAdded(keys: seq<Key>, list: seq<Name>)
      requires Valid() && Listed(list) && LevelKeys(keys) && Entered(levels, of, list, |list|, keys, brk)
      ensures brk !in levels
      ensures Extends(levels, levels[brk := Level(keys, 0)]) && Extends(of, of[brk := NamesOf(list)])
      ensures var l1, of1 := levels[brk := Level(keys, 0)], of[brk := NamesOf(list)];
        forall b :: b in l1 ==> LevelOk(l1, of1, b)
    {
      hide LevelOk, LevelKeys, Entered, Listed, NamesOf;
      var a, l1, of1 := brk, levels[brk := Level(keys, 0)], of[brk := NamesOf(list)];
      EnteredStays(levels, of, l1, of1, list, |list|, keys, a, a);
      EnteredAll(l1, of1, list, keys, a);
      forall b | b in levels ensures LevelOk(l1, of1, b) {
        LevelStays(levels, of, l1, of1, b);
      }
    }

    /** Sets the wildcard's own value in the level that was made last, which nothing points to yet. */
    method SetValue(a: nat, value: nat)
      requires Valid() && Packed() && a in levels && a + SIZE == brk
      modifies this`levels
      ensures Valid() && Packed() && brk == old(brk)
      ensures levels == old(levels)[a := Level(old(levels[a].keys), value)] && of == old(of)
    {
      hide LevelOk, LevelKeys, Hash.Holds;
      ghost var l0 := levels;
      levels := levels[a := Level(levels[a].keys, value)];
      forall b | b in levels ensures LevelOk(levels, of, b) {
        NotPointedTo(l0, levels, of, b, a);
      }
    }

    /**
      One round of ngx_hash_wildcard_init's loop: the names that share the first label of list[n]
      become the tagged value for this label, with a hash of their own if any of them goes on.
    */
    method BuildEntry(list: seq<Name>, n: nat, fits: seq<Key> -> bool, ghost bound: nat)
      returns (r: Result<Key>, i: nat, ghost next: seq<Name>)
      requires Valid() && Packed() && Listed(list) && n < |list| && Apart(list, n)
      requires DataPointers(list, bound) && Fitting(fits, maxSize, bucketSize, line)
      modifies this
      ensures Valid() && Packed() && Kept()
      ensures IsGroup(list, n, i, next)
      ensures r.Error? ==> Refused(fits, |list|, bound) || brk + SIZE > MEMORY
      ensures r.Ok? ==> |r.value.name| < bound && r.value.value < MEMORY
      ensures r.Ok? ==> r.value.name == Label(list[n].name) && LevelKeys([r.value])
      ensures r.Ok? ==> Entry(levels, of, NamesOf(list), r.value.name, r.value.value, brk)
      decreases bound, 0
    {
      hide LevelOk, LevelKeys, Listed, NamesOf, IsGroup, Label, Entry, Packed, Fitting, Refused, DataPointers;
      PointerAt(list, n, bound);
      var s := list[n].name;
      var width, dot := ScanLabel(s);
      var names: seq<Name>;
      names, i := Gather(list, n, width, dot);
      next := names;
      var value := list[n].value;
      GroupBound(list, n, i, next, bound);
      if names != [] {
        var below := WildcardInit(names, fits, bound - 1);
        if below.Error? {
          if Refused(fits, |names|, bound - 1) {
            RefusedBelow(fits, |names|, |list|, bound - 1);
          }
          return Error, i, next;
        }
        var wdc := below.value;
        var len := if dot then width + 1 else width;
        if |s| == len {
          SetValue(wdc, list[n].value);
        }
        value := wdc + if dot then 3 else 2;
      } else if dot {
        value := value + 1;
      }
      assert s[..width] == Label(s);
      var key := Key(s[..width], false, HashKey(s[..width]), value);
      KeyOk(list, n, key);
      GroupEntry(levels, of, list, n, i, next, value, brk);
      return Ok(key), i, next;
    }

    /**
      ngx_hash_wildcard_init.  `fits` says which keys suit the hash's settings and get memory from
      the pool.  The names must be sorted, distinct apart from a final dot, and in lower case.
    */
    method WildcardInit(list: seq<Name>, fits: seq<Key> -> bool, ghost bound: nat) returns (r: Result<nat>)
      requires Valid() && Packed() && Listed(list)
      requires DataPointers(list, bound) && Fitting(fits, maxSize, bucketSize, line)
      modifies this
      ensures Valid() && Packed() && Kept()
      ensures r.Error? ==> Refused(fits, |list|, bound) || brk + SIZE > MEMORY
      ensures r.Ok? ==> r.value in levels && r.value !in old(levels) && r.value + SIZE == brk
      ensures r.Ok? ==> levels[r.value].value == 0 && of[r.value] == NamesOf(list)
      decreases bound, 1
    {
      hide LevelOk, LevelKeys, Listed, NamesOf, IsGroup, Label, Entry, Apart, Entered, Packed, Fitting, Refused,
        DataPointers;
      var curr: seq<Key> := [];
      var n := 0;
      NothingEntered(levels, of, list, brk);
      while n < |list|
        invariant n <= |list| && Valid() && Packed() && Kept() && Apart(list, n)
        invariant |curr| <= n && forall j :: 0 <= j < |curr| ==> |curr[j].name| < bound && curr[j].value < MEMORY
        invariant Entered(levels, of, list, n, curr, brk)
      {
        ghost var l0, of0, top := levels, of, brk;
        ghost var next;
        var entry, i;
        entry, i, next := BuildEntry(list, n, fits, bound);
        if entry.Error? {
          return Error;
        }
        GroupLength(list, n, i, next);
        EnteredStays(l0, of0, levels, of, list, n, curr, top, brk);
        EnteredNext(levels, of, list, n, i, next, curr, entry.value, brk);
        ApartNext(list, n, i, next);
        curr := curr + [entry.value];
        n := i;
      }
      EnteredKeys(levels, of, list, curr, brk);
      if !fits(curr) {
        NotTaken(fits, curr, |list|, bound);
        return Error;
      }
      if brk + SIZE > MEMORY {
        return Error;
      }
      var a := AddLevel(curr, list, fits);
      return Ok(a);
    }

    /**
      ngx_hash_find_wc_head, for a host name in lower case: NULL may be returned for a name that
      only the wildcard of this level itself matches; at the root this wildcard has no value.
    */
    method FindHead(hwc: nat, name: Bytes) returns (value: nat)
      requires Valid() && Packed() && hwc in levels
      ensures Found(false, of[hwc], Rev(name), levels[hwc].value, value)
      decreases |name|
    {
      hide Found, LevelOk, Labelled, Below, IsSub, Rev, Lookup, LevelKeys, Proper, Label, Hash.Holds, HashOf, NoNulls;
      var n, key := LastDot(name);
      ghost var t := Rev(name);
      LastLabel(name, n);
      ReadTags(levels, of, hwc, name[n..]);
      LevelSearch(levels[hwc].keys, name[n..]);
      value := hashes[hwc].Find(key, name[n..], levels[hwc].keys, line);
      if value == 0 {
        NoLabel(false, of[hwc], t, levels[hwc].value);
        return levels[hwc].value;
      }
      if BelowBit(value) {
        var below := Untagged(value);
        if n == 0 {
          Here(false, of[hwc], t, levels[hwc].value);
          if OnlyBit(value) {
            return 0;
          }
          return levels[below].value;
        }
        value := FindHead(below, name[..n - 1]);
        Down(false, of[hwc], of[below], t, levels[hwc].value, value);
        if value != 0 {
          return value;
        }
        return levels[below].value;
      }
      Here(false, of[hwc], t, levels[hwc].value);
      if OnlyBit(value) {
        if n == 0 {
          return 0;
        }
        return Untagged(value);
      }
      return value;
    }

    /** ngx_hash_find_wc_tail */
    method FindTail(hwc: nat, name: Bytes) returns (value: nat)
      requires Valid() && Packed() && hwc in levels && Kind(true, of[hwc])
      ensures Found(true, of[hwc], name, levels[hwc].value, value)
      decreases |name|
    {
      hide MostSpecific, Entry, Labelled, Below, Own, IsSub, Lookup, LevelKeys, Proper, Kind, Hash.Holds, HashOf,
        NoNulls;
      var i, key := FirstDot(name);
      if i == |name| {
        Here(true, of[hwc], name, levels[hwc].value);
        return 0;
      }
      ReadTags(levels, of, hwc, name[..i]);
      LevelSearch(levels[hwc].keys, name[..i]);
      value := hashes[hwc].Find(key, name[..i], levels[hwc].keys, line);
      if value == 0 {
        NoLabel(true, of[hwc], name, levels[hwc].value);
        return levels[hwc].value;
      }
      if BelowBit(value) {
        var below := Untagged(value);
        KindBelow(true, of[hwc], name[..i], of[below]);
        value := FindTail(below, name[i + 1..]);
        Down(true, of[hwc], of[below], name, levels[hwc].value, value);
        if value != 0 {
          return value;
        }
        return levels[below].value;
      }
      Here(true, of[hwc], name, levels[hwc].value);
      EndsThere(of[hwc], name[..i]);
      return value;
    }
  }

  /** The label after the last dot is the first of the reversed name. */
  lemma LastLabel(name: Bytes, n: nat)
    requires n <= |name| && DotFree(name[n..]) && (n > 0 ==> name[n - 1] == DOT)
    ensures Label(Rev(name)) == name[n..]
    ensures n == 0 ==> Rev(name) == name
    ensures n > 0 ==> Rev(name) == name[n..] + [DOT] + Rev(name[..n - 1])
  {
    hide First, Label, Rev, DotFree;
    if n == 0 {
      assert name[n..] == name;
      RevCut(name, []);
      LabelIs(name, name);
    } else {
      CutAt(name, n - 1);
      LastJoin(name[..n - 1], name[n..]);
    }
  }

  lemma LastJoin(a: Bytes, l: Bytes)
    requires DotFree(l)
    ensures Rev(a + [DOT] + l) == l + [DOT] + Rev(a) && Label(Rev(a + [DOT] + l)) == l
  {
    hide First, Label, Rev;
    RevJoin(a, l);
    RevCut(l, []);
    LabelIs(l + [DOT] + Rev(a), l);
  }

  lemma FirstLabel(name: Bytes, i: nat)
    requires i <= |name| && DotFree(name[..i]) && (i < |name| ==> name[i] == DOT)
    ensures Label(name) == name[..i]
  {
    if i < |name| {
      assert name[..i + 1] == name[..i] + [DOT];
    } else {
      assert name[..i] == name;
    }
    LabelIs(name, name[..i]);
  }

  /** What a search of the hash at address `root` finds; there may be no such hash. */
  ghost predicate Answer(trie: Trie, tail: bool, root: nat, t: Bytes, r: nat)
    reads trie
  {
    if root == 0 || root !in trie.of then r == 0 else MostSpecific(tail, trie.of[root], t, 0, r)
  }

  /** ngx_hash_find_combined: the exact names first, then names that end alike, then names that begin alike. */
  method FindCombined(
      hash: Option<Hash>, ghost exact: seq<Key>, trie: Trie, head: nat, tail: nat, key: nat, name: Bytes)
      returns (value: nat)
    requires LevelKeys(exact) && trie.Valid() && trie.Packed() && key == HashKey(name)
    requires if hash.Some? then hash.value.Holds(exact, trie.line) else exact == []
    requires head != 0 ==> head in trie.levels && trie.levels[head].value == 0
    requires tail != 0 ==> tail in trie.levels && trie.levels[tail].value == 0 && Kind(true, trie.of[tail])
    ensures Lookup(exact, name) != 0 ==> value == Lookup(exact, name)
    ensures Lookup(exact, name) == 0 && name == [] ==> value == 0
    ensures Lookup(exact, name) == 0 && name != [] ==>
      || (value != 0 && Answer(trie, false, head, Rev(name), value))
      || (Answer(trie, false, head, Rev(name), 0) && Answer(trie, true, tail, name, value))
  {
    hide MostSpecific, LevelKeys, Kind, Lookup, Hash.Holds, HashOf, NoNulls;
    LevelSearch(exact, name);
    value := 0;
    if hash.Some? {
      value := hash.value.Find(key, name, exact, trie.line);
    } else {
      LookupNothing(name);
    }
    if value != 0 || name == [] {
      return;
    }
    if head != 0 {
      value := trie.FindHead(head, name);
      if value != 0 {
        return;
      }
    }
    if tail != 0 {
      value := trie.FindTail(tail, name);
    }
  }

  lemma LookupNothing(name: Bytes)
    ensures Lookup([], name) == 0
  {
  }
}
