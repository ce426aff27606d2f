/**
  ngx_hash_add_key of src/core/ngx_hash.c: names are sorted out into exact names, "*.x" and ".x",
  and "x.*", and the labels of the second kind are reversed for ngx_hash_wildcard_init.
 */
module HashKeys {
  import opened HashTable
  import opened Octets
  import opened WildcardHash
  import opened Wrappers

  datatype Rc = OK | BUSY | DECLINED

  /** "*.base" or, with `also`, ".base", which stands for "base" as well. */
  datatype Pattern = Pattern(base: Bytes, also: bool)

  /** The hosts a pattern stands for. */
  predicate StandsFor(p: Pattern, host: Bytes) {
    EndsWith(host, [DOT] + p.base) || (p.also && host == p.base)
  }

  /** The name a pattern is stored under. */
  function NameFor(p: Pattern): Bytes {
    if p.also then Rev(p.base) else Rev(p.base) + [DOT]
  }

  predicate NoLeadingDot(s: Bytes) {
    s != [] ==> s[0] != DOT
  }

  lemma StoredMatches(p: Pattern, host: Bytes)
    requires NoLeadingDot(p.base)
    ensures MatchesHead(NameFor(p), Rev(host)) <==> StandsFor(p, host)
    ensures Depth(NameFor(p)) == |p.base|
  {
    HeadPattern(p.base, host);
  }

  /** ns holds the patterns' values. */
  ghost predicate Holds(ns: Names, ps: map<Pattern, nat>) {
    && (forall p :: p in ps ==> NoLeadingDot(p.base) && NameFor(p) in ns && ns[NameFor(p)] == ps[p])
    && (forall s :: s in ns ==> exists p :: p in ps && NameFor(p) == s)
  }

  /** The value of the longest pattern that stands for the host, NULL if none does. */
  ghost predicate BestPattern(ps: map<Pattern, nat>, host: Bytes, r: nat) {
    if exists p :: p in ps && StandsFor(p, host)
    then exists p :: p in ps && StandsFor(p, host) && r == ps[p] && Longest(ps, host, p)
    else r == 0
  }

  ghost predicate Longest(ps: map<Pattern, nat>, host: Bytes, p: Pattern) {
    forall q :: q in ps && StandsFor(q, host) ==> |q.base| <= |p.base|
  }

  /** What the search of the trie finds is the answer for the patterns as they were written. */
  lemma SearchFindsPattern(ns: Names, ps: map<Pattern, nat>, host: Bytes, r: nat)
    requires Holds(ns, ps) && MostSpecific(false, ns, Rev(host), 0, r)
    ensures BestPattern(ps, host, r)
  {
    hide NameFor, StandsFor, MatchesHead, Rev, Depth;
    forall p | p in ps
      ensures MatchesHead(NameFor(p), Rev(host)) <==> StandsFor(p, host)
      ensures Depth(NameFor(p)) == |p.base|
    {
      StoredMatches(p, host);
    }
    if s :| s in ns && Matches(false, s, Rev(host)) && r == ns[s] && Deepest(false, ns, Rev(host), s) {
      var p :| p in ps && NameFor(p) == s;
      assert Longest(ps, host, p);
    } else {
      forall p | p in ps ensures !StandsFor(p, host) {
        assert NameFor(p) in ns;
      }
    }
  }

  datatype Kind = ExactName | Head(skip: nat) | Tail

  function Stars(s: Bytes): nat {
    if s == [] then 0 else Stars(s[..|s| - 1]) + if s[|s| - 1] == STAR then 1 else 0
  }

  predicate DotsAt(s: Bytes, i: nat) {
    i + 1 < |s| && s[i] == s[i + 1] == DOT
  }

  predicate DoubleDot(s: Bytes) {
    exists i: nat :: i < |s| && DotsAt(s, i)
  }

  /**
    What a name is: at most one star, no empty label inside, and a star only as a whole first or last label.
    The byte after the name is read too, and taken for a part of it when two dots are looked for.
   */
  function KindOf(key: Bytes, beyond: Byte): (kind: Result<Kind>)
    ensures kind == Ok(Head(1)) ==> |key| > 1 && key[0] == DOT && NoLeadingDot(key[1..])
    ensures kind == Ok(Head(2)) ==> |key| > 2 && key[1] == DOT && NoLeadingDot(key[2..])
    ensures kind == Ok(Tail) ==> |key| > 2 && key[|key| - 2..] == [DOT, STAR] && !EndsDot(key[..|key| - 2])
    ensures kind.Ok? ==> kind.value in {ExactName, Head(1), Head(2), Tail}
  {
    if Stars(key) > 1 || DoubleDot(key + [beyond]) || 0 in key then Error
    else if |key| > 1 && key[0] == DOT then
      assert !DotsAt(key + [beyond], 0);
      Ok(Head(1))
    else if |key| > 2 && key[0] == STAR && key[1] == DOT then
      assert !DotsAt(key + [beyond], 1);
      Ok(Head(2))
    else if |key| > 2 && key[|key| - 2] == DOT && key[|key| - 1] == STAR then
      assert !DotsAt(key + [beyond], |key| - 3);
      Ok(Tail)
    else if Stars(key) > 0 then Error
    else Ok(ExactName)
  }

  // ---------- what the kinds are, by the shape of a name ----------

  /** No NUL, no two stars, and no empty label, with the byte after the name. */
  ghost predicate Good(key: Bytes, beyond: Byte) {
    && 0 !in key
    && (forall i, j :: 0 <= i < j < |key| ==> key[i] != STAR || key[j] != STAR)
    && (forall x, y :: key + [beyond] != x + [DOT, DOT] + y)
  }

  lemma {:induction false} NoStarIn(s: Bytes)
    ensures Stars(s) == 0 <==> STAR !in s
  {
    if s != [] {
      var k := |s| - 1;
      NoStarIn(s[..k]);
      assert s == s[..k] + [s[k]];
    }
  }

  lemma {:induction false} OneStarAtMost(s: Bytes)
    ensures Stars(s) <= 1 <==> forall i, j :: 0 <= i < j < |s| ==> s[i] != STAR || s[j] != STAR
  {
    if s != [] {
      var k := |s| - 1;
      OneStarAtMost(s[..k]);
      NoStarIn(s[..k]);
      if Stars(s) > 1 {
        if Stars(s[..k]) == 1 {
          assert STAR in s[..k];
          var i :| 0 <= i < k && s[..k][i] == STAR;
          assert s[i] == STAR == s[k];
        } else {
          var i, j :| 0 <= i < j < k && !(s[..k][i] != STAR || s[..k][j] != STAR);
          assert s[i] == STAR == s[j];
        }
      } else {
        forall i, j | 0 <= i < j < |s| ensures s[i] != STAR || s[j] != STAR {
          assert s[i] == s[..k][i];
          if j < k {
            assert s[j] == s[..k][j];
          }
        }
      }
    }
  }

  lemma NoEmptyLabel(s: Bytes)
    ensures DoubleDot(s) <==> exists x, y :: s == x + [DOT, DOT] + y
  {
    if DoubleDot(s) {
      var i: nat :| i < |s| && DotsAt(s, i);
      assert s == s[..i] + [DOT, DOT] + s[i + 2..];
    }
    forall x, y | s == x + [DOT, DOT] + y ensures DoubleDot(s) {
      assert s[|x|] == DOT && s[|x| + 1] == DOT;
      assert DotsAt(s, |x|);
    }
  }

  lemma GoodIs(key: Bytes, beyond: Byte)
    ensures Good(key, beyond) <==> !(Stars(key) > 1 || DoubleDot(key + [beyond]) || 0 in key)
  {
    hide Stars, DoubleDot;
    OneStarAtMost(key);
    NoEmptyLabel(key + [beyond]);
  }

  /** ".b", "*.b" and "b.*" */
  function Dotted(b: Bytes): Bytes { [DOT] + b }
  function Starred(b: Bytes): Bytes { [STAR, DOT] + b }
  function Trailed(b: Bytes): Bytes { b + [DOT, STAR] }

  /**
    Every name that is not good, and every other one with a star that is none of these forms, is declined;
    a name that begins with a dot is never the third.
   */
  lemma KindIs(key: Bytes, beyond: Byte)
    ensures KindOf(key, beyond) == Ok(Head(1)) <==> Good(key, beyond) && exists b :: b != [] && key == Dotted(b)
    ensures KindOf(key, beyond) == Ok(Head(2)) <==> Good(key, beyond) && exists b :: b != [] && key == Starred(b)
    ensures KindOf(key, beyond) == Ok(Tail) <==>
      Good(key, beyond) && exists b :: b != [] && b[0] != DOT && key == Trailed(b)
    ensures KindOf(key, beyond) == Ok(ExactName) <==>
      Good(key, beyond) && STAR !in key && !exists b :: b != [] && key == Dotted(b)
  {
    hide Stars, DoubleDot, Good;
    GoodIs(key, beyond);
    NoStarIn(key);
    Shapes(key);
    if Good(key, beyond) && |key| > 2 && key[0] == STAR {
      StarOnce(key, beyond);
    }
  }

  lemma StarOnce(key: Bytes, beyond: Byte)
    requires Good(key, beyond) && |key| > 2 && key[0] == STAR
    ensures key[|key| - 1] != STAR
  {
  }

  lemma Shapes(key: Bytes)
    ensures (exists b :: b != [] && key == Dotted(b)) <==> |key| > 1 && key[0] == DOT
    ensures (exists b :: b != [] && key == Starred(b)) <==> |key| > 2 && key[0] == STAR && key[1] == DOT
    ensures (exists b :: b != [] && b[0] != DOT && key == Trailed(b)) <==>
      |key| > 2 && key[|key| - 2] == DOT && key[|key| - 1] == STAR && key[0] != DOT
  {
    if |key| > 1 && key[0] == DOT {
      assert key == Dotted(key[1..]);
    }
    if |key| > 2 && key[0] == STAR && key[1] == DOT {
      assert key == Starred(key[2..]);
    }
    if |key| > 2 && key[|key| - 2] == DOT && key[|key| - 1] == STAR && key[0] != DOT {
      assert key == Trailed(key[..|key| - 2]);
    }
  }

  /** The byte after the name makes a difference exactly for an otherwise good name that ends with a dot. */
  lemma ByteBehind(key: Bytes)
    ensures (exists b: Byte :: KindOf(key, b) != KindOf(key, 0)) <==> EndsDot(key) && KindOf(key, 0).Ok?
  {
    hide Stars;
    forall b: Byte ensures DoubleDot(key + [b]) <==> DoubleDot(key + [0]) || (EndsDot(key) && b == DOT) {
      DotsBehind(key, b);
      DotsBehind(key, 0);
    }
    if EndsDot(key) && KindOf(key, 0).Ok? {
      assert KindOf(key, DOT) == Error;
    }
  }

  lemma DotsBehind(key: Bytes, b: Byte)
    ensures DoubleDot(key + [b]) <==> DoubleDot(key) || (EndsDot(key) && b == DOT)
  {
    var s := key + [b];
    assert forall i: nat :: i + 1 < |key| ==> (DotsAt(s, i) <==> DotsAt(key, i));
    if EndsDot(key) && b == DOT {
      assert DotsAt(s, |key| - 1);
    }
    if DoubleDot(key) {
      var i: nat :| i < |key| && DotsAt(key, i);
      assert DotsAt(s, i);
    }
  }

  method Classify(key: Bytes, beyond: Byte) returns (kind: Result<Kind>)
    ensures kind == KindOf(key, beyond)
  {
    hide Stars;
    var n, i := 0, 0;
    NoStars();
    assert key[..0] == [];
    while i < |key|
      invariant 0 <= i <= |key| && n == Stars(key[..i]) && n <= 1 && n <= Stars(key)
      invariant forall k: nat :: k < i ==> !DotsAt(key + [beyond], k)
      invariant 0 !in key[..i]
    {
      StarsNext(key, i);
      if key[i] == STAR {
        n := n + 1;
        if n > 1 {
          return Error;
        }
      }
      var next := if i + 1 < |key| then key[i + 1] else beyond;
      if key[i] == DOT && next == DOT {
        assert DotsAt(key + [beyond], i);
        return Error;
      }
      if key[i] == 0 {
        return Error;
      }
      i := i + 1;
    }
    assert key[..i] == key;
    if |key| > 1 && key[0] == DOT {
      return Ok(Head(1));
    }
    if |key| > 2 {
      if key[0] == STAR && key[1] == DOT {
        return Ok(Head(2));
      }
      if key[i - 2] == DOT && key[i - 1] == STAR {
        return Ok(Tail);
      }
    }
    if n > 0 {
      return Error;
    }
    return Ok(ExactName);
  }

  lemma NoStars()
    ensures Stars([]) == 0
  {
  }

  lemma StarsLast(s: Bytes, c: Byte)
    ensures Stars(s + [c]) == Stars(s) + if c == STAR then 1 else 0
  {
    assert (s + [c])[..|s|] == s;
  }

  lemma {:induction false} StarsNext(key: Bytes, i: nat)
    requires i < |key|
    ensures Stars(key[..i + 1]) == Stars(key[..i]) + if key[i] == STAR then 1 else 0
    ensures Stars(key[..i + 1]) <= Stars(key)
    ensures key[..i + 1] == key[..i] + [key[i]]
    decreases |key| - i
  {
    hide Stars;
    StarsLast(key[..i], key[i]);
    assert key[..i + 1] == key[..i] + [key[i]];
    if i + 1 < |key| {
      StarsNext(key, i + 1);
    } else {
      assert key[..i + 1] == key;
    }
  }

  /** What the reversed name has before its last label, which is t's first. */
  function Behind(t: Bytes): Bytes {
    var f := First(t);
    if f == |t| then [] else Rev(t[f + 1..]) + [DOT]
  }

  lemma BehindNext(c: Byte, t: Bytes)
    ensures Rev(t) == Behind(t) + t[..First(t)]
    ensures if c == DOT then First([c] + t) == 0 && Behind([c] + t) == Rev(t) + [DOT]
            else First([c] + t) == First(t) + 1 && Behind([c] + t) == Behind(t)
  {
    var t' := [c] + t;
    assert t'[1..] == t;
    if First(t) < |t| {
      assert t'[First(t) + 2..] == t[First(t) + 1..];
    }
  }

  /** ngx_memcpy to the end of what p holds. */
  method Put(p: array<Byte>, n: nat, s: Bytes) returns (m: nat)
    requires n + |s| <= p.Length
    modifies p
    ensures m == n + |s| && p[..m] == old(p[..n]) + s
  {
    forall j | 0 <= j < |s| {
      p[n + j] := s[j];
    }
    m := n + |s|;
  }

  /** The loop that turns "*.example.com" into "com.example." and ".example.com" into "com.example". */
  method Reverse(key: Bytes, skip: nat, p: array<Byte>) returns (n: nat)
    requires 1 <= skip <= 2 && skip < |key| && key[skip - 1] == DOT && p.Length == |key|
    modifies p
    ensures n < p.Length && p[..n] == NameFor(Pattern(key[skip..], skip == 1))
  {
    hide Rev, First, Behind;
    var len, i := 0, |key| - 1;
    n := 0;
    BehindEmpty();
    assert key[i + 1..] == [];
    while i > 0
      invariant 0 <= i < |key| && n + len + i + 1 == |key| && 0 <= len
      invariant len == First(key[i + 1..]) && p[..n] == Behind(key[i + 1..])
    {
      ghost var t := key[i + 1..];
      assert t[..len] == key[i + 1..i + 1 + len];
      assert key[i..] == [key[i]] + t;
      BehindNext(key[i], t);
      if key[i] == DOT {
        n := Put(p, n, key[i + 1..i + 1 + len]);
        n := Put(p, n, [DOT]);
        len := 0;
      } else {
        len := len + 1;
      }
      i := i - 1;
    }
    ghost var t := key[1..];
    BehindNext(DOT, t);
    if len > 0 {
      n := Put(p, n, key[1..1 + len]);
    }
    assert p[..n] == Behind(t) + t[..len];
    if skip == 2 {
      assert t == [DOT] + key[2..];
      BehindNext(DOT, key[2..]);
    }
    p[n] := 0;
  }

  lemma BehindEmpty()
    ensures First([]) == 0 && Behind([]) == []
  {
  }

  class Keys {
    var exact: seq<Bytes>            // ha->keys
    var heads: seq<Name>             // ha->dns_wc_head
    var tails: seq<Name>             // ha->dns_wc_tail
    var exactSeen: set<Bytes>        // ha->keys_hash
    var headSeen: set<Bytes>         // ha->dns_wc_head_hash
    var tailSeen: set<Bytes>         // ha->dns_wc_tail_hash
    ghost var patterns: seq<Pattern>

    /** Every stored head name is a pattern's, and no name or base was stored twice. */
    ghost predicate Valid()
      reads this
    {
      && (forall i :: 0 <= i < |exact| ==> exact[i] in exactSeen)
      && (forall i, j :: 0 <= i < j < |exact| ==> exact[i] != exact[j])
      && |patterns| == |heads|
      && (forall i :: 0 <= i < |heads| ==>
            heads[i].name == NameFor(patterns[i]) && NoLeadingDot(patterns[i].base) && patterns[i].base in headSeen)
      && (forall i, j :: 0 <= i < j < |heads| ==> patterns[i].base != patterns[j].base)
      && (forall i :: 0 <= i < |tails| ==> tails[i].name + [DOT] in tailSeen && !EndsDot(tails[i].name))
      && (forall i, j :: 0 <= i < j < |tails| ==> tails[i].name != tails[j].name)
    }

    constructor ()
      ensures Valid() && exact == [] && heads == [] && tails == []
      ensures exactSeen == {} && headSeen == {} && tailSeen == {}
    {
      exact, heads, tails, patterns := [], [], [], [];
      exactSeen, headSeen, tailSeen := {}, {}, {};
    }

    /** "*.base" and ".base" are in conflict with each other, ".base" with "base" as well. */
    method AddHead(key: Bytes, skip: nat, value: nat) returns (rc: Rc)
      requires Valid() && 1 <= skip <= 2 && skip < |key| && key[skip - 1] == DOT && NoLeadingDot(key[skip..])
      modifies this
      ensures Valid() && exact == old(exact) && tails == old(tails) && tailSeen == old(tailSeen)
      ensures var base := LowerAll(key[skip..]);
        && rc == (if base in old(headSeen) || (skip == 1 && base in old(exactSeen)) then BUSY else OK)
        && exactSeen == old(exactSeen) + (if skip == 1 then {base} else {})
        && headSeen == old(headSeen) + (if rc == OK then {base} else {})
        && heads == old(heads) + (if rc == OK then [Name(NameFor(Pattern(base, skip == 1)), value)] else [])
        && patterns == old(patterns) + (if rc == OK then [Pattern(base, skip == 1)] else [])
    {
      hide NameFor, LowerAll;
      var base := LowerAll(key[skip..]);
      if skip == 1 {
        if base in exactSeen {
          return BUSY;
        }
        exactSeen := exactSeen + {base};
      }
      var lowered := key[..skip] + base;
      var p := new Byte[|key|];
      assert lowered[skip..] == base;
      var n := Reverse(lowered, skip, p);
      if base in headSeen {
        return BUSY;
      }
      LoweredDot(key[skip..]);
      headSeen := headSeen + {base};
      heads := heads + [Name(p[..n], value)];
      patterns := patterns + [Pattern(base, skip == 1)];
      return OK;
    }

    method AddTail(key: Bytes, value: nat) returns (rc: Rc)
      requires Valid() && |key| > 2 && key[|key| - 2..] == [DOT, STAR] && !EndsDot(key[..|key| - 2])
      modifies this
      ensures Valid() && exact == old(exact) && heads == old(heads)
      ensures headSeen == old(headSeen) && exactSeen == old(exactSeen) && patterns == old(patterns)
      ensures var base := LowerAll(key[..|key| - 2]);
        && rc == (if base + [DOT] in old(tailSeen) then BUSY else OK)
        && tailSeen == old(tailSeen) + (if rc == OK then {base + [DOT]} else {})
        && tails == old(tails) + (if rc == OK then [Name(base, value)] else [])
    {
      var base := LowerAll(key[..|key| - 2]);
      var seen := base + [key[|key| - 2]];
      assert key[|key| - 2] == key[|key| - 2..][0] == DOT;
      if seen in tailSeen {
        return BUSY;
      }
      assert forall i :: 0 <= i < |tails| ==> tails[i].name + [DOT] != base + [DOT];
      tailSeen := tailSeen + {seen};
      tails := tails + [Name(base, value)];
      return OK;
    }

    /** ngx_hash_add_key; the names of ha->keys are kept without their values and hashes, `beyond` follows key. */
    method AddKey(key: Bytes, beyond: Byte, value: nat, wildcard: bool, readonly: bool) returns (rc: Rc)
      requires Valid()
      modifies this
      ensures Valid()
      ensures rc == DECLINED <==> wildcard && KindOf(key, beyond).Error?
      ensures rc == DECLINED ==> unchanged(this)
      ensures rc == BUSY ==> heads == old(heads) && tails == old(tails) && exact == old(exact)
      ensures rc != DECLINED ==>
        match if wildcard then KindOf(key, beyond).value else ExactName
        case ExactName =>
          var name := if readonly then key else LowerAll(key);
          && (rc == BUSY <==> name in old(exactSeen))
          && (rc == OK ==> exact == old(exact) + [name])
          && heads == old(heads) && tails == old(tails) && patterns == old(patterns)
          && exactSeen == old(exactSeen) + {name} && headSeen == old(headSeen) && tailSeen == old(tailSeen)
        case Head(skip) =>
          && 1 <= skip <= 2 <= |key|
          && (var base, also := LowerAll(key[skip..]), skip == 1;
              && (rc == BUSY <==> base in old(headSeen) || (also && base in old(exactSeen)))
              && (rc == OK ==>
                    && heads == old(heads) + [Name(NameFor(Pattern(base, also)), value)]
                    && patterns == old(patterns) + [Pattern(base, also)])
              && (rc == BUSY ==> patterns == old(patterns))
              && exact == old(exact) && tails == old(tails)
              && exactSeen == old(exactSeen) + (if also then {base} else {})
              && headSeen == old(headSeen) + (if rc == OK then {base} else {}) && tailSeen == old(tailSeen))
        case Tail =>
          && 2 <= |key|
          && (var base := LowerAll(key[..|key| - 2]);
              && (rc == BUSY <==> base + [DOT] in old(tailSeen))
              && (rc == OK ==> tails == old(tails) + [Name(base, value)])
              && exact == old(exact) && heads == old(heads) && patterns == old(patterns)
              && exactSeen == old(exactSeen) && headSeen == old(headSeen)
              && tailSeen == old(tailSeen) + {base + [DOT]})
    {
      hide NameFor, LowerAll;
      if wildcard {
        var kind := Classify(key, beyond);
        match kind {
          case Error =>
            return DECLINED;
          case Ok(Head(skip)) =>
            rc := AddHead(key, skip, value);
            return;
          case Ok(Tail) =>
            rc := AddTail(key, value);
            return;
          case Ok(ExactName) =>
        }
      }
      var name := if readonly then key else LowerAll(key);
      if name in exactSeen {
        return BUSY;
      }
      exactSeen := exactSeen + {name};
      exact := exact + [name];
      return OK;
    }

    /** The patterns that were added, with their values. */
    ghost function Patterns(): map<Pattern, nat>
      requires Valid()
      reads this
    {
      Zip(patterns, heads)
    }

    /** So the list of heads, once sorted, is what WildcardInit asks for, and holds the patterns. */
    lemma HeadsApart(i: nat, j: nat)
      requires Valid() && i < |heads| && j < |heads|
      ensures i != j ==> heads[i].name != heads[j].name
      ensures heads[j].name != heads[i].name + [DOT]
    {
      hide Rev;
      var p, q := patterns[i], patterns[j];
      RevTwice(p.base);
      RevTwice(q.base);
      RevEnd(p.base);
      RevEnd(q.base);
      LastDots(Rev(p.base), Rev(q.base));
    }
  }

  lemma LastDots(a: Bytes, b: Bytes)
    requires !EndsDot(a) && !EndsDot(b)
    ensures a + [DOT] != b && a + [DOT] + [DOT] != b + [DOT] && a + [DOT] + [DOT] != b
    ensures a + [DOT] == b + [DOT] ==> a == b
  {
    assert (a + [DOT])[..|a|] == a && (b + [DOT])[..|b|] == b;
    assert EndsDot(a + [DOT]) && EndsDot(a + [DOT] + [DOT]);
  }

  lemma LoweredDot(s: Bytes)
    requires NoLeadingDot(s)
    ensures NoLeadingDot(LowerAll(s))
  {
  }

  // ---------- what adding does to the patterns ----------

  datatype Form = Star | Dot | Trail | Plain

  function Written(form: Form, b: Bytes): Bytes {
    match form
    case Star => Starred(b)
    case Dot => Dotted(b)
    case Trail => Trailed(b)
    case Plain => b
  }

  /** A base of whole labels, or without a label at its end, that is no wildcard itself. */
  ghost predicate Base(b: Bytes) {
    && b != [] && b[0] != DOT && STAR !in b && 0 !in b
    && (forall x, y :: b != x + [DOT, DOT] + y)
  }

  /** Where the value of a name that was added is found. */
  ghost predicate Entered(keys: Keys, form: Form, b: Bytes, value: nat)
    requires keys.Valid()
    reads keys
  {
    var base := LowerAll(b);
    match form
    case Star => Pattern(base, false) in keys.Patterns() && keys.Patterns()[Pattern(base, false)] == value
    case Dot => Pattern(base, true) in keys.Patterns() && keys.Patterns()[Pattern(base, true)] == value
    case Trail => Name(base, value) in keys.tails
    case Plain => base in keys.exact
  }

  lemma WrittenGood(form: Form, b: Bytes, beyond: Byte)
    requires Base(b) && beyond != DOT && (form == Trail ==> !EndsDot(b))
    ensures Good(Written(form, b), beyond)
  {
    var key := Written(form, b);
    NoEmptyLabel(b);
    NoEmptyLabel(key + [beyond]);
    forall n: nat | n < |key| ensures !DotsAt(key + [beyond], n) {
      var i := if form == Star then n - 2 else if form == Dot then n - 1 else n;
      assert 0 <= i < |b| ==> !DotsAt(b, i);
    }
  }

  lemma WrittenKind(form: Form, b: Bytes, beyond: Byte)
    requires Base(b) && beyond != DOT && (form == Trail ==> !EndsDot(b))
    ensures KindOf(Written(form, b), beyond) == match form
      case Star => Ok(Head(2))
      case Dot => Ok(Head(1))
      case Trail => Ok(Tail)
      case Plain => Ok(ExactName)
  {
    hide Good, KindOf;
    var key := Written(form, b);
    WrittenGood(form, b, beyond);
    KindIs(key, beyond);
    Shapes(key);
  }

  /** Names of each form are taken, unless they are known, and their values are where they belong. */
  method AddWritten(keys: Keys, form: Form, b: Bytes, beyond: Byte, value: nat) returns (rc: Rc)
    requires keys.Valid() && Base(b) && beyond != DOT && (form == Trail ==> !EndsDot(b))
    modifies keys
    ensures keys.Valid() && rc != DECLINED
    ensures rc == OK ==> Entered(keys, form, b, value)
    ensures rc == BUSY <==>
      var base := LowerAll(b);
      match form
      case Star => base in old(keys.headSeen)
      case Dot => base in old(keys.headSeen) || base in old(keys.exactSeen)
      case Trail => base + [DOT] in old(keys.tailSeen)
      case Plain => base in old(keys.exactSeen)
  {
    hide KindOf, LowerAll, Base, NameFor, Zip;
    WrittenKind(form, b, beyond);
    rc := keys.AddKey(Written(form, b), beyond, value, true, false);
    WrittenParts(form, b);
    if rc == OK {
      var base := LowerAll(b);
      if form == Star || form == Dot {
        ZipAt(keys.patterns, keys.heads, |keys.heads| - 1);
      } else if form == Trail {
        assert keys.tails[|keys.tails| - 1] == Name(base, value);
      } else {
        assert keys.exact[|keys.exact| - 1] == base;
      }
    }
  }

  lemma WrittenParts(form: Form, b: Bytes)
    ensures form == Star ==> Written(form, b)[2..] == b
    ensures form == Dot ==> Written(form, b)[1..] == b
    ensures form == Trail ==> Written(form, b)[..|Written(form, b)| - 2] == b
  {
  }

  // ---------- from the names to an answer ----------

  function Zip(ps: seq<Pattern>, ns: seq<Name>): map<Pattern, nat>
    requires |ps| == |ns|
  {
    if ps == [] then map[]
    else var k := |ps| - 1; Zip(ps[..k], ns[..k])[ps[k] := ns[k].value]
  }

  lemma {:induction false} ZipAt(ps: seq<Pattern>, ns: seq<Name>, i: nat)
    requires |ps| == |ns| && i < |ps| && forall i, j :: 0 <= i < j < |ps| ==> ps[i].base != ps[j].base
    ensures ps[i] in Zip(ps, ns) && Zip(ps, ns)[ps[i]] == ns[i].value
  {
    var k := |ps| - 1;
    if i < k {
      ZipAt(ps[..k], ns[..k], i);
    }
  }

  lemma {:induction false} ZipFrom(ps: seq<Pattern>, ns: seq<Name>, p: Pattern) returns (i: nat)
    requires |ps| == |ns| && p in Zip(ps, ns)
    ensures i < |ps| && ps[i] == p
  {
    var k := |ps| - 1;
    if ps[k] == p {
      i := k;
    } else {
      i := ZipFrom(ps[..k], ns[..k], p);
    }
  }

  /** On clean names the order is total. */
  lemma {:induction false} LessTotal(a: Bytes, b: Bytes)
    requires Clean(a) && Clean(b) && a != b
    ensures Less(a, b) || Less(b, a)
  {
    if a != [] && b != [] && a[0] == b[0] {
      assert a == [a[0]] + a[1..] && b == [b[0]] + b[1..];
      LessTotal(a[1..], b[1..]);
    }
  }

  /** Sorting by ngx_dns_strcmp: the same names, none before a smaller one. */
  ghost predicate SortedFrom(list: seq<Name>, names: seq<Name>) {
    && multiset(list) == multiset(names)
    && forall i, j :: 0 <= i < j < |list| ==> !Less(list[j].name, list[i].name)
  }

  /** What values and names must be like for ngx_hash_wildcard_init. */
  ghost predicate Usable(names: seq<Name>) {
    forall i :: 0 <= i < |names| ==>
      Clean(names[i].name) && 0 < names[i].value < MEMORY && names[i].value % 4 == 0
  }

  lemma Elsewhere(list: seq<Name>, names: seq<Name>, i: nat) returns (k: nat)
    requires multiset(list) == multiset(names) && i < |list|
    ensures k < |names| && names[k] == list[i]
  {
    assert list[i] in multiset(names);
    k :| 0 <= k < |names| && names[k] == list[i];
  }

  lemma TwoPlaces(list: seq<Name>, names: seq<Name>, i: nat, j: nat)
    requires multiset(list) == multiset(names) && i < j < |list|
    requires forall k, l :: 0 <= k < l < |names| ==> names[k] != names[l]
    ensures list[i] != list[j]
  {
    if list[i] == list[j] {
      var x := list[i];
      assert list == list[..i] + [x] + list[i + 1..j] + [x] + list[j + 1..];
      assert multiset(list)[x] >= 2;
      CountOne(names, x);
    }
  }

  lemma {:induction false} CountOne(names: seq<Name>, x: Name)
    requires forall k, l :: 0 <= k < l < |names| ==> names[k] != names[l]
    ensures multiset(names)[x] <= 1
  {
    if names != [] {
      var k := |names| - 1;
      assert names == names[..k] + [names[k]];
      CountOne(names[..k], x);
    }
  }

  /** All names differ, even apart from a final dot. */
  ghost predicate Apart(names: seq<Name>) {
    forall k, l :: 0 <= k < |names| && 0 <= l < |names| ==>
      (k != l ==> names[k].name != names[l].name) && names[l].name != names[k].name + [DOT]
  }

  /** Any two of the sorted names are two of the names. */
  lemma StillApart(names: seq<Name>, list: seq<Name>, i: nat, j: nat)
    requires Apart(names) && multiset(list) == multiset(names) && i < |list| && j < |list|
    ensures i != j ==> list[i].name != list[j].name
    ensures list[j].name != list[i].name + [DOT]
  {
    if i < j {
      TwoPlaces(list, names, i, j);
    } else if j < i {
      TwoPlaces(list, names, j, i);
    }
    var k := Elsewhere(list, names, i);
    var l := Elsewhere(list, names, j);
  }

  lemma StillUsable(list: seq<Name>, names: seq<Name>, i: nat)
    requires Usable(names) && multiset(list) == multiset(names) && i < |list|
    ensures Clean(list[i].name) && 0 < list[i].value < MEMORY && list[i].value % 4 == 0
  {
    hide Clean;
    var k := Elsewhere(list, names, i);
  }

  /** Such names, sorted, are a list as ngx_hash_wildcard_init wants it. */
  lemma SortedListed(names: seq<Name>, list: seq<Name>)
    requires Apart(names) && Usable(names) && SortedFrom(list, names)
    ensures Listed(list) && DataPointers(list, LongestName(list))
  {
    hide Less, Clean, Usable, Apart;
    forall i: nat, j: nat | i < j < |list| ensures Less(list[i].name, list[j].name) {
      StillApart(names, list, i, j);
      StillUsable(list, names, i);
      StillUsable(list, names, j);
      LessTotal(list[i].name, list[j].name);
    }
    forall i: nat | i < |list|
      ensures Clean(list[i].name) && 0 < list[i].value < MEMORY && list[i].value % 4 == 0
    {
      StillUsable(list, names, i);
    }
    forall i: nat, j: nat | i < |list| && j < |list| ensures list[j].name != list[i].name + [DOT] {
      StillApart(names, list, i, j);
    }
  }

  /** So the heads and the tails that were added can be made into tries. */
  lemma HeadsListed(keys: Keys, list: seq<Name>)
    requires keys.Valid() && Usable(keys.heads) && SortedFrom(list, keys.heads)
    ensures Listed(list) && DataPointers(list, LongestName(list))
  {
    hide Keys.Valid, Usable, SortedFrom, LongestName;
    forall k: nat, l: nat | k < |keys.heads| && l < |keys.heads|
      ensures (k != l ==> keys.heads[k].name != keys.heads[l].name)
              && keys.heads[l].name != keys.heads[k].name + [DOT]
    {
      keys.HeadsApart(k, l);
    }
    SortedListed(keys.heads, list);
  }

  lemma TailsListed(keys: Keys, list: seq<Name>)
    requires keys.Valid() && Usable(keys.tails) && SortedFrom(list, keys.tails)
    ensures Listed(list) && DataPointers(list, LongestName(list))
    ensures WildcardHash.Kind(true, NamesOf(list))
  {
    hide Usable, SortedFrom, LongestName, NamesOf;
    forall k: nat, l: nat | k < |keys.tails| && l < |keys.tails|
      ensures keys.tails[l].name != keys.tails[k].name + [DOT]
    {
      assert EndsDot(keys.tails[k].name + [DOT]);
    }
    SortedListed(keys.tails, list);
    forall s | s in NamesOf(list) ensures !EndsDot(s) {
      var i := NameFrom(list, s);
      TailFrom(keys, list, i);
    }
  }

  lemma TailFrom(keys: Keys, list: seq<Name>, i: nat)
    requires keys.Valid() && SortedFrom(list, keys.tails) && i < |list|
    ensures !EndsDot(list[i].name)
  {
    hide Less, EndsDot;
    var k := Elsewhere(list, keys.tails, i);
  }

  /** And it holds the patterns that were added. */
  lemma HeadsHold(keys: Keys, list: seq<Name>)
    requires keys.Valid() && Listed(list) && SortedFrom(list, keys.heads)
    ensures Holds(NamesOf(list), keys.Patterns())
  {
    hide Listed, NamesOf, NameFor, Zip;
    var ns, ps := NamesOf(list), keys.Patterns();
    forall p | p in ps ensures NoLeadingDot(p.base) && NameFor(p) in ns && ns[NameFor(p)] == ps[p] {
      var i := ZipFrom(keys.patterns, keys.heads, p);
      ZipAt(keys.patterns, keys.heads, i);
      var j := Elsewhere(keys.heads, list, i);
      NameIn(list, j);
    }
    forall s | s in ns ensures exists p :: p in ps && NameFor(p) == s {
      var j := NameFrom(list, s);
      var i := Elsewhere(list, keys.heads, j);
      ZipAt(keys.patterns, keys.heads, i);
      assert keys.patterns[i] in ps && NameFor(keys.patterns[i]) == s;
    }
  }

  ghost function LongestName(list: seq<Name>): (n: nat)
    ensures forall i :: 0 <= i < |list| ==> |list[i].name| < n
  {
    if list == [] then 0
    else
      var k := |list| - 1;
      var n, len := LongestName(list[..k]), |list[k].name| + 1;
      assert forall i :: 0 <= i < k ==> list[i] == list[..k][i];
      if n < len then len else n
  }

  /** The value of the longest "base.*" that stands for the host, NULL if none does. */
  ghost predicate BestTail(tails: seq<Name>, host: Bytes, r: nat) {
    if exists i :: 0 <= i < |tails| && TailStands(tails[i].name, host)
    then exists i :: 0 <= i < |tails| && TailStands(tails[i].name, host) && r == tails[i].value
                     && LongestTail(tails, host, tails[i].name)
    else r == 0
  }

  predicate TailStands(base: Bytes, host: Bytes) {
    base + [DOT] <= host
  }

  ghost predicate LongestTail(tails: seq<Name>, host: Bytes, base: Bytes) {
    forall i :: 0 <= i < |tails| && TailStands(tails[i].name, host) ==> |tails[i].name| <= |base|
  }

  /** What the search of the tails' trie finds is the answer for the tails as they were added. */
  lemma SearchFindsTail(keys: Keys, list: seq<Name>, host: Bytes, r: nat)
    requires keys.Valid() && Listed(list) && SortedFrom(list, keys.tails)
    requires MostSpecific(true, NamesOf(list), host, 0, r)
    ensures BestTail(keys.tails, host, r)
  {
    hide Listed, NamesOf, EndsDot;
    var ns, tails := NamesOf(list), keys.tails;
    forall i: nat | i < |tails|
      ensures tails[i].name in ns && ns[tails[i].name] == tails[i].value && Depth(tails[i].name) == |tails[i].name|
    {
      var j := Elsewhere(tails, list, i);
      NameIn(list, j);
    }
    if s :| s in ns && Matches(true, s, host) && r == ns[s] && Deepest(true, ns, host, s) {
      var j := NameFrom(list, s);
      var i := Elsewhere(list, tails, j);
      forall k | 0 <= k < |tails| && TailStands(tails[k].name, host) ensures |tails[k].name| <= |tails[i].name| {
        assert Matches(true, tails[k].name, host);
      }
      assert TailStands(tails[i].name, host);
    } else {
      forall k | 0 <= k < |tails| ensures !TailStands(tails[k].name, host) {
        assert Matches(true, tails[k].name, host) <==> TailStands(tails[k].name, host);
      }
    }
  }

  /** A trie for a list of names, if there are any, as the configuration asks for it. */
  method Build(list: seq<Name>, fits: seq<Key> -> bool, trie: Trie) returns (r: Result<nat>)
    requires trie.Valid() && trie.Packed() && Listed(list) && DataPointers(list, LongestName(list))
    requires Fitting(fits, trie.maxSize, trie.bucketSize, trie.line)
    modifies trie
    ensures trie.Valid() && trie.Packed() && trie.Kept()
    ensures r.Error? ==> Refused(fits, |list|, LongestName(list)) || trie.brk + SIZE > MEMORY
    ensures r.Ok? ==> (r.value == 0 <==> list == [])
    ensures r.Ok? && r.value != 0 ==>
      r.value in trie.levels && r.value in trie.of && trie.levels[r.value].value == 0
      && trie.of[r.value] == NamesOf(list)
  {
    hide Listed, NamesOf, LongestName, Refused, DataPointers, LevelOk, LevelKeys, Hash.Holds, Fitting;
    if list == [] {
      return Ok(0);
    }
    r := trie.WildcardInit(list, fits, LongestName(list));
  }

  /** The tries there are; none for an empty list. */
  ghost predicate RootFor(trie: Trie, root: nat, list: seq<Name>)
    reads trie
  {
    && (root == 0 <==> list == [])
    && (root != 0 ==> root in trie.of && trie.of[root] == NamesOf(list))
  }

  lemma HeadAnswer(keys: Keys, list: seq<Name>, trie: Trie, root: nat, host: Bytes, r: nat)
    requires keys.Valid() && Listed(list) && SortedFrom(list, keys.heads) && RootFor(trie, root, list)
    requires Answer(trie, false, root, Rev(host), r)
    ensures BestPattern(keys.Patterns(), host, r)
  {
    hide Listed, NamesOf, Keys.Valid, MostSpecific, Rev, Holds;
    if root == 0 {
      assert |keys.heads| == |multiset(keys.heads)| == |multiset(list)| == 0;
      NoPatterns(keys);
    } else {
      HeadsHold(keys, list);
      SearchFindsPattern(NamesOf(list), keys.Patterns(), host, r);
    }
  }

  lemma NoPatterns(keys: Keys)
    requires keys.Valid() && keys.heads == []
    ensures keys.Patterns() == map[]
  {
  }

  lemma TailAnswer(keys: Keys, list: seq<Name>, trie: Trie, root: nat, host: Bytes, r: nat)
    requires keys.Valid() && Listed(list) && SortedFrom(list, keys.tails) && RootFor(trie, root, list)
    requires Answer(trie, true, root, host, r)
    ensures BestTail(keys.tails, host, r)
  {
    hide Listed, NamesOf, Keys.Valid, MostSpecific;
    if root == 0 {
      assert |keys.tails| == |multiset(keys.tails)| == |multiset(list)| == 0;
    } else {
      SearchFindsTail(keys, list, host, r);
    }
  }

  /** What a host's value is, first by its exact name, then by heads, then by tails. */
  ghost predicate Answered(exact: nat, ps: map<Pattern, nat>, tails: seq<Name>, host: Bytes, r: nat) {
    if exact != 0 then r == exact
    else if host == [] then r == 0
    else (r != 0 && BestPattern(ps, host, r)) || (BestPattern(ps, host, 0) && BestTail(tails, host, r))
  }

  /**
    The way of the wildcard names through the code: added one by one, sorted, built into tries of packed
    hashes, and searched for a host, after the exact names.
   */
  method FindAdded(keys: Keys, heads: seq<Name>, tails: seq<Name>, hash: Option<Hash>, ghost exact: seq<Key>,
                   fits: seq<Key> -> bool, trie: Trie, host: Bytes) returns (r: Result<nat>)
    requires keys.Valid() && trie.Valid() && trie.Packed()
    requires Usable(keys.heads) && SortedFrom(heads, keys.heads)
    requires Usable(keys.tails) && SortedFrom(tails, keys.tails)
    requires Fitting(fits, trie.maxSize, trie.bucketSize, trie.line) && LevelKeys(exact)
    requires if hash.Some? then hash.value.Holds(exact, trie.line) else exact == []
    modifies trie
    ensures trie.Valid() && trie.Packed()
    ensures r.Error? ==>
      || Refused(fits, |heads|, LongestName(heads)) || Refused(fits, |tails|, LongestName(tails))
      || trie.brk + SIZE > MEMORY
    ensures r.Ok? ==> Answered(Lookup(exact, host), keys.Patterns(), keys.tails, host, r.value)
  {
    hide Listed, NamesOf, LongestName, Refused, DataPointers, LevelOk, LevelKeys, Hash.Holds, Fitting, Keys.Valid,
      WildcardHash.Kind, Usable, SortedFrom, MostSpecific, BestPattern, BestTail, Trie.Packed, Rev, Lookup;
    HeadsListed(keys, heads);
    TailsListed(keys, tails);
    var head := Build(heads, fits, trie);
    if head.Error? {
      return Error;
    }
    var tail := Build(tails, fits, trie);
    if tail.Error? {
      return Error;
    }
    var value := FindCombined(hash, exact, trie, head.value, tail.value, HashKey(host), host);
    if Lookup(exact, host) == 0 && host != [] {
      if value != 0 && Answer(trie, false, head.value, Rev(host), value) {
        HeadAnswer(keys, heads, trie, head.value, host, value);
      } else {
        HeadAnswer(keys, heads, trie, head.value, host, 0);
        TailAnswer(keys, tails, trie, tail.value, host, value);
      }
    }
    return Ok(value);
  }
}
