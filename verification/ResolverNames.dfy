/**
  Names in DNS messages, from src/core/ngx_resolver.c: ngx_resolver_create_name_query writes a name
  into a query from right to left, ngx_resolver_copy reads one in two passes, following
  compression pointers (sections 3.1 and 4.1.4 of RFC 1035).
 */
module ResolverNames {
  import opened Octets
  import opened Wrappers

  const HDR := 12               // sizeof(ngx_resolver_hdr_t)
  const QS := 4                 // sizeof(ngx_resolver_qs_t)
  const STEPS := 128

  // ---------- writing ----------

  /** A name as it is sent: each label after its length, and a zero byte. */
  function Encoded(t: Bytes): (r: Bytes)
    requires Labels(t, 255)
    ensures |r| == |t| + 2
    decreases |t|
  {
    [First(t)] + Body(t)
  }

  /** The same without the length of the first label. */
  function Body(t: Bytes): (r: Bytes)
    requires Rest(t)
    ensures |r| == |t| + 1
    decreases |t|, 0
  {
    var f := First(t);
    t[..f] + if f == |t| then [0] else Encoded(t[f + 1..])
  }

  /** All labels have 1 to max bytes. */
  predicate Labels(t: Bytes, max: nat)
    decreases |t|
  {
    var f := First(t);
    1 <= f <= max && (f < |t| ==> Labels(t[f + 1..], max))
  }

  /** The labels after the first are all right. */
  predicate Rest(t: Bytes) {
    var f := First(t);
    f < |t| ==> Labels(t[f + 1..], 255)
  }

  lemma FirstNext(c: Byte, t: Bytes)
    ensures First([c] + t) == if c == DOT then 0 else First(t) + 1
  {
    assert ([c] + t)[1..] == t;
  }

  lemma BodyChar(c: Byte, t: Bytes)
    requires Rest(t) && c != DOT
    ensures Rest([c] + t) && First([c] + t) == First(t) + 1 && Body([c] + t) == [c] + Body(t)
  {
    hide First, Encoded, Labels;
    FirstNext(c, t);
    var t', f := [c] + t, First(t);
    assert t'[..f + 1] == [c] + t[..f];
    assert f < |t| ==> t'[f + 2..] == t[f + 1..];
  }

  lemma BodyDot(t: Bytes)
    requires Labels(t, 255)
    ensures Rest([DOT] + t) && First([DOT] + t) == 0 && Body([DOT] + t) == [First(t)] + Body(t)
  {
    hide First;
    FirstNext(DOT, t);
    var t' := [DOT] + t;
    assert t'[1..] == t && t'[..0] == [];
  }

  lemma LabelsAfter(l: Bytes, t: Bytes)
    requires DotFree(l)
    ensures Labels(l + [DOT] + t, 255) <==> 1 <= |l| <= 255 && Labels(t, 255)
  {
    LabelIs(l + [DOT] + t, l);
    assert (l + [DOT] + t)[|l| + 1..] == t;
  }

  lemma {:induction false} BadLabel(s: Bytes, t: Bytes)
    requires t == [] || First(t) == 0 || First(t) > 255 || !Rest(t)
    ensures !Labels(s + [DOT] + t, 255)
    decreases |s|
  {
    hide First, Rest, Labels;
    var f := First(s);
    var l := s[..f];
    if f == |s| {
      assert l == s;
      LabelsAfter(l, t);
      BadStart(t);
    } else {
      CutAt(s, f);
      var s' := s[f + 1..];
      assert s + [DOT] + t == l + [DOT] + (s' + [DOT] + t);
      LabelsAfter(l, s' + [DOT] + t);
      BadLabel(s', t);
    }
  }

  lemma BadStart(t: Bytes)
    requires t == [] || First(t) == 0 || First(t) > 255 || !Rest(t)
    ensures !Labels(t, 255)
  {
  }

  lemma ConsJoin(c: Byte, x: Bytes, y: Bytes)
    ensures [c] + (x + y) == ([c] + x) + y
  {
  }

  /** Writes one byte before those that are there. */
  method Put(p: array<Byte>, i: nat, c: Byte, ghost at: nat)
    requires at <= i < p.Length
    modifies p
    ensures p[..at] == old(p[..at]) && p[i..] == [c] + old(p[..][i + 1..])
  {
    p[i] := c;
  }

  /** What the loop has done when it has come down to s: what follows is encoded, all but its first length. */
  ghost predicate Done(p: Bytes, q: Bytes, at: nat, name: Bytes, s: nat, len: nat) {
    && at + |name| + 2 <= |p| == |q| && s <= |name|
    && len == First(name[s..]) && Rest(name[s..])
    && p[..at] == q[..at] && p[at + s + 1..] == Body(name[s..]) + q[at + |name| + 2..]
  }

  /** One byte of the name. */
  method WriteByte(p: array<Byte>, ghost q: Bytes, at: nat, name: Bytes, s: nat, len: nat) returns (ok: bool, len': nat)
    requires s < |name| && Done(p[..], q, at, name, s + 1, len)
    modifies p
    ensures ok ==> Done(p[..], q, at, name, s, len')
    ensures !ok ==> !Labels(name, 255)
  {
    hide First, Body, Encoded, Labels, Rest;
    ghost var t, tail := name[s + 1..], q[at + |name| + 2..];
    var c := name[s];
    assert name[s..] == [c] + t;
    if c != DOT {
      BodyChar(c, t);
      Put(p, at + s + 1, c, at);
      ConsJoin(c, Body(t), tail);
      return true, len + 1;
    }
    LabelsAre(t);
    if len == 0 || len > 255 {
      CutAt(name, s);
      BadLabel(name[..s], t);
      return false, len;
    }
    BodyDot(t);
    Put(p, at + s + 1, len, at);
    ConsJoin(len, Body(t), tail);
    return true, 0;
  }

  /**
    The loop of ngx_resolver_create_name_query, from the last byte to the first; it refuses an empty
    name, an empty label and one of more than 255 bytes.
  */
  method WriteName(p: array<Byte>, at: nat, name: Bytes) returns (ok: bool)
    requires at + |name| + 2 <= p.Length
    modifies p
    ensures ok <==> Labels(name, 255)
    ensures ok ==> p[..] == old(p[..at]) + Encoded(name) + old(p[at + |name| + 2..])
  {
    hide First, Body, Encoded, Labels, Rest;
    ghost var q := p[..];
    p[at + |name| + 1] := 0;
    NoLabels();
    if |name| == 0 {
      return false;
    }
    var len: nat, s: nat := 0, |name|;
    BodyEmpty();
    assert name[s..] == [];
    while s > 0
      invariant Done(p[..], q, at, name, s, len)
    {
      s := s - 1;
      ok, len := WriteByte(p, q, at, name, s, len);
      if !ok {
        return;
      }
    }
    assert name[0..] == name;
    LabelsAre(name);
    if len == 0 || len > 255 {
      return false;
    }
    Put(p, at, len, at);
    ConsJoin(len, Body(name), q[at + |name| + 2..]);
    assert p[..] == p[..at] + p[at..];
    return true;
  }

  /** ngx_resolver_create_name_query; Error is NGX_DECLINED. */
  method CreateNameQuery(name: Bytes, ident: nat) returns (r: Result<array<Byte>>)
    ensures r.Ok? <==> Labels(name, 255)
    ensures r.Ok? ==> r.value[..] == Header(ident) + Encoded(name) + Question()
  {
    hide Encoded, Labels, Header;
    NoLabels();
    var nlen := if |name| > 0 then 1 + |name| + 1 else 1;
    var p := new Byte[HDR + nlen + QS];
    var h, qs := Header(ident), Question();
    forall i | 0 <= i < HDR {
      p[i] := h[i];
    }
    forall i | 0 <= i < QS {
      p[HDR + nlen + i] := qs[i];
    }
    if |name| == 0 {
      p[HDR] := 0;
      return Error;
    }
    assert p[..HDR] == h && p[HDR + nlen..] == qs;
    var ok := WriteName(p, HDR, name);
    return if ok then Ok(p) else Error;
  }

  /** Type A, class IN. */
  function Question(): (q: Bytes)
    ensures |q| == QS
  {
    [0, 1, 0, 1]
  }

  /** The header of a query with one question and recursion desired (section 4.1.1 of RFC 1035). */
  function Header(ident: nat): (h: Bytes)
    ensures |h| == HDR
  {
    [ident / 256 % 256, ident % 256, 1, 0, 0, 1, 0, 0, 0, 0, 0, 0]
  }

  /** Two bytes in network order. */
  function Number(s: Bytes, i: nat): nat
    requires i + 1 < |s|
  {
    var hi: nat, lo: nat := s[i], s[i + 1];
    256 * hi + lo
  }

  /** A query: its ident, recursion desired, one question; for an address of the Internet. */
  lemma QueryFields(ident: nat)
    requires ident < 0x1_0000
    ensures var h := Header(ident);
      && Number(h, 0) == ident && Number(h, 2) == 0x0100 && Number(h, 4) == 1
      && Number(h, 6) == 0 && Number(h, 8) == 0 && Number(h, 10) == 0
    ensures Number(Question(), 0) == 1 && Number(Question(), 2) == 1
  {
  }

  lemma NoLabels()
    ensures !Labels([], 255)
  {
  }

  lemma BodyEmpty()
    ensures First([]) == 0 && Rest([]) && Body([]) == [0]
  {
  }

  lemma LabelsAre(t: Bytes)
    ensures Labels(t, 255) <==> 1 <= First(t) <= 255 && Rest(t)
    ensures Labels(t, 255) ==> Encoded(t) == [First(t)] + Body(t)
  {
  }

  // ---------- reading ----------

  /** A name in a message: its labels, and whether its last label is followed by its zero byte itself. */
  datatype Name = Name(labels: seq<Bytes>, direct: bool)

  predicate IsPointer(n: Byte) {
    n >= 64
  }

  function Target(m: Bytes, p: nat): nat
    requires p + 1 < |m|
  {
    var hi: nat, lo: nat := m[p], m[p + 1];
    hi % 64 * 256 + lo
  }

  /** A pointer is two bits, both set, and the offset in the other fourteen. */
  lemma PointerRoundTrip(m: Bytes, p: nat, n: nat)
    requires p + 1 < |m| && n < 0x4000 && m[p] == 0xc0 + n / 256 && m[p + 1] == n % 256
    ensures IsPointer(m[p]) && Target(m, p) == n
  {
  }

  /** The name at p as section 4.1.4 of RFC 1035 defines it, if it is read in `fuel` steps, all before `last`. */
  function Read(m: Bytes, last: nat, p: nat, fuel: nat): (r: Result<Name>)
    requires p < last < |m|
    decreases fuel
  {
    if fuel == 0 then Error
    else if m[p] == 0 then Ok(Name([], true))
    else if IsPointer(m[p]) then
      var q := Target(m, p);
      if q >= last then Error
      else
        var r := Read(m, last, q, fuel - 1);
        if r.Ok? && r.value.labels == [] then Ok(Name([], false)) else r
    else
      var q := p + 1 + m[p];
      if q >= last then Error
      else
        var r := Read(m, last, q, fuel - 1);
        if r.Error? then r else Ok(r.value.(labels := [m[p + 1..q]] + r.value.labels))
  }

  /** A pointer to a name stands for the name's labels. */
  lemma PointerStandsFor(m: Bytes, last: nat, p: nat, n: nat, fuel: nat)
    requires p + 1 < last < |m| && n < 0x4000 && n < last && m[p] == 0xc0 + n / 256 && m[p + 1] == n % 256
    ensures Read(m, last, p, fuel + 1).Ok? <==> Read(m, last, n, fuel).Ok?
    ensures Read(m, last, n, fuel).Ok? ==>
      Read(m, last, p, fuel + 1).value.labels == Read(m, last, n, fuel).value.labels
  {
    PointerRoundTrip(m, p, n);
  }

  /** A label that is not the last stands before those of the name behind it. */
  lemma LabelStandsFirst(m: Bytes, last: nat, p: nat, fuel: nat)
    requires p < last < |m| && 0 < m[p] < 64 && p + 1 + m[p] < last
    ensures var q := p + 1 + m[p];
      && (Read(m, last, p, fuel + 1).Ok? <==> Read(m, last, q, fuel).Ok?)
      && (Read(m, last, q, fuel).Ok? ==>
            Read(m, last, p, fuel + 1).value.labels == [m[p + 1..q]] + Read(m, last, q, fuel).value.labels)
  {
  }

  /** Whether the reading comes upon a pointer whose second byte is not before `last`, but is the byte there. */
  predicate Overruns(m: Bytes, last: nat, p: nat, fuel: nat)
    requires p < last < |m|
    decreases fuel
  {
    fuel > 0 && m[p] != 0 &&
    var q := if IsPointer(m[p]) then Target(m, p) else p + 1 + m[p];
    (IsPointer(m[p]) && p == last - 1) || (q < last && Overruns(m, last, q, fuel - 1))
  }

  /** A response of a zero byte and half a pointer: a name or none, as the byte after it says. */
  lemma ReadsBeyond(x: Byte)
    ensures Overruns([0, 192, x], 2, 1, STEPS)
    ensures Read([0, 192, x], 2, 1, STEPS).Ok? <==> x == 0
  {
    var m := [0, 192, x];
    assert Target(m, 1) == x;
    if x == 0 {
      assert Read(m, 2, 0, STEPS - 1) == Ok(Name([], true));
    } else if x == 1 {
      PointsAtItself(m, STEPS);
    }
  }

  lemma {:induction false} PointsAtItself(m: Bytes, fuel: nat)
    requires |m| == 3 && m[1] == 192 && m[2] == 1
    ensures Read(m, 2, 1, fuel).Error?
    decreases fuel
  {
    if fuel > 0 {
      PointsAtItself(m, fuel - 1);
    }
  }

  /** Otherwise that byte does not matter. */
  lemma {:induction false} UnreadDoesNotMatter(m: Bytes, m': Bytes, last: nat, p: nat, fuel: nat)
    requires p < last < |m| && last < |m'| && m[..last] == m'[..last]
    requires !Overruns(m, last, p, fuel)
    ensures !Overruns(m', last, p, fuel) && Read(m', last, p, fuel) == Read(m, last, p, fuel)
    decreases fuel
  {
    SameBefore(m, m', last);
    if fuel > 0 && m[p] != 0 {
      var q := if IsPointer(m[p]) then Target(m, p) else p + 1 + m[p];
      if q < last {
        UnreadDoesNotMatter(m, m', last, q, fuel - 1);
      }
      if !IsPointer(m[p]) && q <= last {
        assert m[p + 1..q] == m[..last][p + 1..q];
        assert m'[p + 1..q] == m'[..last][p + 1..q];
      }
    }
  }

  lemma SameBefore(m: Bytes, m': Bytes, last: nat)
    requires last < |m| && last < |m'| && m[..last] == m'[..last]
    ensures forall i :: 0 <= i < last ==> m[i] == m'[i]
  {
    forall i | 0 <= i < last ensures m[i] == m'[i] {
      assert m[i] == m[..last][i];
      assert m'[i] == m'[..last][i];
    }
  }

  /** The labels joined by dots, in lower case. */
  function Joined(ls: seq<Bytes>): Bytes {
    if ls == [] then []
    else LowerAll(ls[0]) + if ls[1..] == [] then [] else [DOT] + Joined(ls[1..])
  }

  /** What ngx_resolver_copy makes of it: a dot too many if a pointer to a zero byte follows the last label. */
  function Text(n: Name): Bytes
    decreases |n.labels|
  {
    if n.labels == [] then []
    else
      var rest := n.labels[1..];
      LowerAll(n.labels[0]) + if rest == [] && n.direct then [] else [DOT] + Text(n.(labels := rest))
  }

  lemma {:induction false} TextIs(n: Name)
    ensures Text(n) == Joined(n.labels) + if n.labels == [] || n.direct then [] else [DOT]
    decreases |n.labels|
  {
    if n.labels != [] && n.labels[1..] != [] {
      TextIs(n.(labels := n.labels[1..]));
    }
  }

  /** The room that labels take, a length byte each. */
  function Room(ls: seq<Bytes>): nat {
    if ls == [] then 0 else 1 + |ls[0]| + Room(ls[1..])
  }

  lemma {:induction false} JoinedLength(ls: seq<Bytes>)
    ensures ls != [] ==> |Joined(ls)| == Room(ls) - 1
  {
    if ls != [] {
      JoinedLength(ls[1..]);
    }
  }

  /** The first pass: the length of the name, -1 for the root, and whether it has read the byte at `last`. */
  method PassOne(m: Bytes, last: nat, src: nat) returns (r: Result<int>, overrun: bool)
    requires src < last < |m|
    ensures overrun <==> Overruns(m, last, src, STEPS)
    ensures r.Ok? <==> Read(m, last, src, STEPS).Ok?
    ensures r.Ok? ==> r.value == Room(Read(m, last, src, STEPS).value.labels) - 1
  {
    var p: nat, len := src, -1;
    overrun := false;
    for i := 0 to STEPS
      invariant p < last && Known(m, last, src, p, STEPS - i, len)
      invariant Overruns(m, last, src, STEPS) <==> overrun || Overruns(m, last, p, STEPS - i)
    {
      var n: nat := m[p];
      if n == 0 {
        return Ok(len), overrun;
      }
      if IsPointer(n) {
        overrun := overrun || p == last - 1;
        p := Target(m, p);
      } else {
        len := len + 1 + n;
        p := p + 1 + n;
      }
      if p >= last {
        return Error, overrun;
      }
    }
    return Error, overrun;
  }

  /** The name at src is what was counted to len, followed by the name at p. */
  ghost predicate Known(m: Bytes, last: nat, src: nat, p: nat, fuel: nat, len: int)
    requires src < last < |m| && p < last
  {
    var all, r := Read(m, last, src, STEPS), Read(m, last, p, fuel);
    && (all.Ok? <==> r.Ok?)
    && (r.Ok? ==> Room(all.value.labels) - 1 == len + Room(r.value.labels))
  }

  /** One step of a name: where it goes on, and what it adds to the text. */
  lemma ReadStep(m: Bytes, last: nat, p: nat, fuel: nat)
    requires p < last < |m| && Read(m, last, p, fuel).Ok? && m[p] != 0
    ensures fuel > 0
    ensures var n: nat := m[p];
      var q := if IsPointer(n) then Target(m, p) else p + 1 + n;
      && q < last && Read(m, last, q, fuel - 1).Ok?
      && Text(Read(m, last, p, fuel).value) ==
           (if IsPointer(n) then []
            else LowerAll(m[p + 1..q]) + if m[q] == 0 then [] else [DOT])
           + Text(Read(m, last, q, fuel - 1).value)
  {
    hide LowerAll;
    var n: nat := m[p];
    var q := if IsPointer(n) then Target(m, p) else p + 1 + n;
    var r := Read(m, last, q, fuel - 1).value;
    if !IsPointer(n) {
      var a := Read(m, last, p, fuel).value;
      assert a.labels[1..] == r.labels;
      assert a.(labels := r.labels) == r;
      if m[q] == 0 {
        assert r == Name([], true);
      } else {
        NotDirect(m, last, q, fuel - 1);
      }
    }
  }

  lemma {:induction false} NotDirect(m: Bytes, last: nat, p: nat, fuel: nat)
    requires p < last < |m| && Read(m, last, p, fuel).Ok? && m[p] != 0
    ensures Read(m, last, p, fuel).value != Name([], true)
  {
  }

  /** The second pass, which checks nothing any more; dst is the memory of the length pass one found. */
  method PassTwo(m: Bytes, last: nat, src0: nat) returns (dst: Bytes)
    requires src0 < last < |m| && Read(m, last, src0, STEPS).Ok? && Read(m, last, src0, STEPS).value.labels != []
    ensures dst == Text(Read(m, last, src0, STEPS).value)
  {
    hide Read, Text, LowerAll, Target;
    NotZero(m, last, src0);
    dst := [];
    ghost var fuel: nat := STEPS;
    var src: nat := src0;
    var n: nat := m[src];
    src := src + 1;
    while true
      invariant 0 < src <= last && n == m[src - 1] && n != 0
      invariant Read(m, last, src - 1, fuel).Ok?
      invariant Text(Read(m, last, src0, STEPS).value) == dst + Text(Read(m, last, src - 1, fuel).value)
      decreases fuel
    {
      ReadStep(m, last, src - 1, fuel);
      if IsPointer(n) {
        src := Target(m, src - 1);
        n := m[src];
        src := src + 1;
      } else {
        dst := dst + LowerAll(m[src..src + n]);
        src := src + n;
        n := m[src];
        src := src + 1;
        if n != 0 {
          dst := dst + [DOT];
        }
      }
      fuel := fuel - 1;
      if n == 0 {
        ReadZero(m, last, src - 1, fuel);
        return;
      }
    }
  }

  lemma NotZero(m: Bytes, last: nat, p: nat)
    requires p < last < |m| && Read(m, last, p, STEPS).Ok? && Read(m, last, p, STEPS).value.labels != []
    ensures m[p] != 0
  {
  }

  lemma ReadZero(m: Bytes, last: nat, p: nat, fuel: nat)
    requires p < last < |m| && Read(m, last, p, fuel).Ok? && m[p] == 0
    ensures Text(Read(m, last, p, fuel).value) == []
  {
  }

  /**
    ngx_resolver_copy of a wanted name from the response msg; the root gives the null name.  `beyond`
    is the byte after the response and `overrun` says whether it is read; `room` is how much memory
    the copy has got, which it passes by one byte if a pointer to a zero byte follows the last label.
   */
  method CopyName(msg: Bytes, beyond: Byte, src: nat, allocOk: bool)
      returns (r: Result<Bytes>, room: int, overrun: bool)
    requires src < |msg|
    ensures var name := Read(msg + [beyond], |msg|, src, STEPS);
      && (r.Ok? <==> name.Ok? && (name.value.labels == [] || allocOk))
      && (r.Ok? ==> r.value == Text(name.value))
      && (r.Ok? && room >= 0 ==> (|r.value| == room <==> name.value.direct) && |r.value| <= room + 1)
      && (r.Ok? ==> (room >= 0 <==> name.value.labels != []))
    ensures overrun <==> Overruns(msg + [beyond], |msg|, src, STEPS)
  {
    hide Read, Text, Overruns;
    var m, last := msg + [beyond], |msg|;
    var len;
    len, overrun := PassOne(m, last, src);
    if len.Error? {
      return Error, -1, overrun;
    }
    room := len.value;
    RoomIs(Read(m, last, src, STEPS).value);
    if room == -1 {
      return Ok([]), room, overrun;
    }
    if !allocOk {
      return Error, room, overrun;
    }
    var dst := PassTwo(m, last, src);
    PassesAgree(Read(m, last, src, STEPS).value);
    r := Ok(dst);
  }

  lemma RoomIs(n: Name)
    ensures Room(n.labels) == 0 <==> n.labels == []
    ensures n.labels == [] ==> Text(n) == []
  {
  }

  /** The second pass writes what the first has found room for exactly if no pointer follows the last label. */
  lemma PassesAgree(n: Name)
    requires n.labels != []
    ensures |Text(n)| == Room(n.labels) - 1 <==> n.direct
    ensures !n.direct ==> |Text(n)| == Room(n.labels)
  {
    TextIs(n);
    JoinedLength(n.labels);
  }

  /** A name that passes its memory: the label "a", and a pointer to the zero byte at the start. */
  lemma OneByteTooMany(beyond: Byte)
    ensures var m: Bytes, a: Bytes := [0, 1, 97, 192, 0, 0, beyond], [97];
      && Read(m, 6, 1, STEPS) == Ok(Name([a], false))
      && Text(Name([a], false)) == [97, DOT] && Room([a]) - 1 == 1
  {
    var m: Bytes := [0, 1, 97, 192, 0, 0, beyond];
    assert Read(m, 6, 0, STEPS - 2) == Ok(Name([], true));
    assert Target(m, 3) == 0;
    assert Read(m, 6, 3, STEPS - 1) == Ok(Name([], false));
    var a: Bytes := [97];
    assert m[2..3] == a && [a] + [] == [a];
    assert Read(m, 6, 1, STEPS) == Ok(Name([a], false));
    TextIs(Name([a], false));
    assert LowerAll(a) == a;
  }

  // ---------- there and back ----------

  function LabelCount(t: Bytes): nat
    decreases |t|
  {
    var f := First(t);
    1 + if f < |t| then LabelCount(t[f + 1..]) else 0
  }

  /** t stands encoded at this place. */
  ghost predicate Here(m: Bytes, at: nat, t: Bytes) {
    Labels(t, 255) && at + |t| + 2 <= |m| && forall i :: 0 <= i < |t| + 2 ==> m[at + i] == Encoded(t)[i]
  }

  /** Labels of at most 63 bytes come back, one step for each and one for the zero byte. */
  lemma {:induction false} ReadEncoded(m: Bytes, last: nat, at: nat, t: Bytes, fuel: nat)
    requires Here(m, at, t) && Labels(t, 63) && at + |t| + 2 <= last < |m|
    ensures Read(m, last, at, fuel).Ok? <==> LabelCount(t) < fuel
    ensures Read(m, last, at, fuel).Ok? ==> Text(Read(m, last, at, fuel).value) == LowerAll(t)
    decreases |t|
  {
    hide Here, LowerAll, Labels, First, Read, Text;
    var f := First(t);
    var q := at + 1 + f;
    LabelAt(m, at, t);
    LowerSplit(t);
    if fuel > 0 {
      if f == |t| {
        ReadLast(m, last, at, f, fuel);
      } else {
        RestAt(m, at, t);
        ReadEncoded(m, last, q, t[f + 1..], fuel - 1);
        ReadLabel(m, last, at, f, fuel);
        Regroup(LowerAll(t[..f]), [DOT], LowerAll(t[f + 1..]));
      }
    } else {
      ReadNothing(m, last, at);
    }
  }

  lemma ReadNothing(m: Bytes, last: nat, p: nat)
    requires p < last < |m|
    ensures Read(m, last, p, 0).Error?
  {
  }

  lemma ReadLast(m: Bytes, last: nat, p: nat, f: nat, fuel: nat)
    requires fuel > 0 && p + 1 + f < last < |m| && 0 < f < 64 && m[p] == f && m[p + 1 + f] == 0
    ensures Read(m, last, p, fuel).Ok? <==> fuel > 1
    ensures fuel > 1 ==> Text(Read(m, last, p, fuel).value) == LowerAll(m[p + 1..p + 1 + f])
  {
    hide LowerAll;
  }

  lemma ReadLabel(m: Bytes, last: nat, p: nat, f: nat, fuel: nat)
    requires fuel > 0 && p + 1 + f < last < |m| && 0 < f < 64 && m[p] == f && m[p + 1 + f] > 0
    ensures var r, rest := Read(m, last, p, fuel), Read(m, last, p + 1 + f, fuel - 1);
      && (r.Ok? <==> rest.Ok?)
      && (r.Ok? ==> Text(r.value) == LowerAll(m[p + 1..p + 1 + f]) + [DOT] + Text(rest.value))
  {
    hide Text, LowerAll;
    if Read(m, last, p, fuel).Ok? {
      ReadStep(m, last, p, fuel);
    } else {
      assert Read(m, last, p + 1 + f, fuel - 1).Error?;
    }
  }

  lemma LabelAt(m: Bytes, at: nat, t: Bytes)
    requires Here(m, at, t) && Labels(t, 63)
    ensures var f, q := First(t), at + 1 + First(t);
      && 1 <= f <= 63 && q < |m| && m[at] == f && m[at + 1..q] == t[..f]
      && (m[q] == 0 <==> f == |t|)
  {
    hide First, Encoded, Labels, EncodedTail, Here;
    ByteAt(m, at, t, 0);
    EncodedParts(t);
    var f := First(t);
    ByteAt(m, at, t, f + 1);
    EncodedByte(t, 0);
    EncodedByte(t, f + 1);
    forall i | 0 <= i < f ensures m[at + 1 + i] == t[i] {
      ByteAt(m, at, t, 1 + i);
      EncodedByte(t, 1 + i);
    }
  }

  lemma ByteAt(m: Bytes, at: nat, t: Bytes, k: nat)
    requires Here(m, at, t) && k < |t| + 2
    ensures Labels(t, 255) && at + |t| + 2 <= |m| && m[at + k] == Encoded(t)[k]
  {
    hide Encoded, Labels;
  }

  lemma EncodedByte(t: Bytes, k: nat)
    requires Labels(t, 255) && Labels(t, 63) && k <= First(t) + 1
    ensures Encoded(t)[k] == if k == 0 then First(t) else if k <= First(t) then t[k - 1] else EncodedTail(t)[0]
  {
    hide First, Encoded, Labels, EncodedTail;
    EncodedParts(t);
  }

  lemma RestAt(m: Bytes, at: nat, t: Bytes)
    requires Here(m, at, t) && Labels(t, 63) && First(t) < |t|
    ensures Here(m, at + 1 + First(t), t[First(t) + 1..]) && Labels(t[First(t) + 1..], 63)
  {
    hide First, Encoded, Labels, Here;
    ByteAt(m, at, t, 0);
    EncodedParts(t);
    var rest := t[First(t) + 1..];
    forall i | 0 <= i < |rest| + 2 ensures m[at + 1 + First(t) + i] == Encoded(rest)[i] {
      RestByte(m, at, t, i);
    }
    HereIs(m, at + 1 + First(t), rest);
  }

  lemma HereIs(m: Bytes, at: nat, t: Bytes)
    requires Labels(t, 255) && at + |t| + 2 <= |m| && forall i :: 0 <= i < |t| + 2 ==> m[at + i] == Encoded(t)[i]
    ensures Here(m, at, t)
  {
    hide Encoded, Labels;
  }

  lemma RestByte(m: Bytes, at: nat, t: Bytes, i: nat)
    requires Here(m, at, t) && Labels(t, 63) && First(t) < |t| && i < |t| - First(t) + 1
    ensures Labels(t[First(t) + 1..], 255) && m[at + 1 + First(t) + i] == Encoded(t[First(t) + 1..])[i]
  {
    hide First, Encoded, Labels;
    TailByte(t, i);
    ByteAt(m, at, t, First(t) + 1 + i);
  }

  lemma TailByte(t: Bytes, i: nat)
    requires Labels(t, 255) && Labels(t, 63) && First(t) < |t| && i < |t| - First(t) + 1
    ensures Labels(t[First(t) + 1..], 255) && Encoded(t)[First(t) + 1 + i] == Encoded(t[First(t) + 1..])[i]
  {
    hide First, Encoded, Labels;
    EncodedParts(t);
    var e, f := Encoded(t), First(t);
    assert e[f + 1 + i] == (t[..f] + EncodedTail(t))[f + i];
  }

  function EncodedTail(t: Bytes): Bytes
    requires Labels(t, 255)
  {
    if First(t) == |t| then [0] else Encoded(t[First(t) + 1..])
  }

  lemma EncodedParts(t: Bytes)
    requires Labels(t, 255) && Labels(t, 63)
    ensures var f := First(t);
      && 1 <= f <= 63 && Encoded(t) == [f] + (t[..f] + EncodedTail(t)) && EncodedTail(t) != []
      && (f == |t| ==> EncodedTail(t)[0] == 0)
      && (f < |t| ==> Labels(t[f + 1..], 255) && Labels(t[f + 1..], 63) && EncodedTail(t)[0] > 0)
  {
    hide First;
    if First(t) < |t| {
      EncodedHead(t[First(t) + 1..]);
    }
  }

  lemma EncodedHead(t: Bytes)
    requires Labels(t, 255)
    ensures Encoded(t)[0] > 0
  {
  }

  lemma LowerJoin(a: Bytes, b: Bytes)
    ensures LowerAll(a + b) == LowerAll(a) + LowerAll(b)
  {
    hide LowerAll;
    var l, r := LowerAll(a + b), LowerAll(a) + LowerAll(b);
    forall i | 0 <= i < |l| ensures l[i] == r[i] {
      assert (a + b)[i] == if i < |a| then a[i] else b[i - |a|];
    }
  }

  lemma Regroup(a: Bytes, b: Bytes, c: Bytes)
    ensures (a + b) + c == a + (b + c)
  {
  }

  lemma LowerSplit(t: Bytes)
    ensures var f := First(t);
      LowerAll(t) == LowerAll(t[..f]) + if f == |t| then [] else [DOT] + LowerAll(t[f + 1..])
  {
    hide First, LowerAll;
    var f := First(t);
    if f == |t| {
      assert t[..f] == t;
    } else {
      CutAt(t, f);
      LowerJoin(t[..f] + [DOT], t[f + 1..]);
      LowerJoin(t[..f], [DOT]);
      assert LowerAll([DOT]) == [DOT];
      Regroup(LowerAll(t[..f]), [DOT], LowerAll(t[f + 1..]));
    }
  }

  /** Text never has a label of more than 63 bytes. */
  predicate Short(t: Bytes)
    decreases |t|
  {
    var f := First(t);
    f <= 63 && (f < |t| ==> Short(t[f + 1..]))
  }

  lemma {:induction false} ShortAfter(l: Bytes, t: Bytes)
    requires |l| <= 63 && Short(t)
    ensures Short(l + [DOT] + t) && Short(l)
    decreases |l|
  {
    hide First;
    var f := First(l);
    if f == |l| {
      LabelIs(l + [DOT] + t, l);
      assert (l + [DOT] + t)[f + 1..] == t;
    } else {
      var h, r := l[..f], l[f + 1..];
      CutAt(l, f);
      ShortAfter(r, t);
      assert l + [DOT] + t == h + [DOT] + (r + [DOT] + t);
      LabelIs(h + [DOT] + (r + [DOT] + t), h);
      assert (h + [DOT] + (r + [DOT] + t))[f + 1..] == r + [DOT] + t;
    }
  }

  lemma {:induction false} ReadShort(m: Bytes, last: nat, p: nat, fuel: nat)
    requires p < last < |m| && Read(m, last, p, fuel).Ok?
    ensures Short(Text(Read(m, last, p, fuel).value))
    decreases fuel
  {
    hide Text, Short, LowerAll;
    if m[p] == 0 {
      ReadZero(m, last, p, fuel);
      ShortEmpty();
    } else {
      ReadStep(m, last, p, fuel);
      var n: nat := m[p];
      var q := if IsPointer(n) then Target(m, p) else p + 1 + n;
      ReadShort(m, last, q, fuel - 1);
      var rest := Text(Read(m, last, q, fuel - 1).value);
      if IsPointer(n) {
        assert [] + rest == rest;
      } else {
        var l := LowerAll(m[p + 1..q]);
        ShortAfter(l, rest);
        if m[q] == 0 {
          ReadZero(m, last, q, fuel - 1);
          assert l + [] + [] == l;
        }
      }
    }
  }

  lemma ShortEmpty()
    ensures Short([])
  {
  }

  lemma {:induction false} ShortLower(t: Bytes)
    requires Short(LowerAll(t)) && Labels(t, 255)
    ensures Labels(t, 63)
    decreases |t|
  {
    hide LowerAll;
    var f, l := First(t), LowerAll(t);
    LowerFirst(t);
    if f < |t| {
      LowerSplit(t);
      assert LowerAll(t[f + 1..]) == l[f + 1..];
      ShortLower(t[f + 1..]);
    }
  }

  lemma LowerFirst(t: Bytes)
    ensures First(LowerAll(t)) == First(t)
  {
    hide LowerAll, First;
    var l, f := LowerAll(t), First(t);
    assert forall i :: 0 <= i < |t| ==> (l[i] == DOT <==> t[i] == DOT);
    if f < |t| {
      assert l[f] == DOT;
    }
  }

  lemma HereAfter(h: Bytes, t: Bytes, tail: Bytes)
    requires Labels(t, 255)
    ensures Here(h + Encoded(t) + tail, |h|, t)
  {
    hide Encoded, Labels;
    var m := h + Encoded(t) + tail;
    forall i | 0 <= i < |t| + 2 ensures m[|h| + i] == Encoded(t)[i] {
    }
  }

  /**
    A name that was put into a query is read back, in lower case, exactly if it has at most 127 labels
    of at most 63 bytes: longer labels, which the query is built with, do not come back.
  */
  lemma QueryRoundTrip(name: Bytes, ident: nat, beyond: Byte)
    requires Labels(name, 255)
    ensures var q := Header(ident) + Encoded(name) + Question();
      var r := Read(q + [beyond], |q|, HDR, STEPS);
      (r.Ok? && Text(r.value) == LowerAll(name)) <==> (Labels(name, 63) && LabelCount(name) <= 127)
  {
    hide Read, Text, LowerAll, Labels, Encoded, Header, Question, Short, LabelCount;
    var q := Header(ident) + Encoded(name) + Question();
    var m := q + [beyond];
    var r := Read(m, |q|, HDR, STEPS);
    if Labels(name, 63) {
      assert m == Header(ident) + Encoded(name) + (Question() + [beyond]);
      HereAfter(Header(ident), name, Question() + [beyond]);
      ReadEncoded(m, |q|, HDR, name, STEPS);
    } else if r.Ok? {
      ReadShort(m, |q|, HDR, STEPS);
      if Text(r.value) == LowerAll(name) {
        ShortLower(name);
      }
    }
  }

  /** A query with a label of 64 bytes is built, and does not come back. */
  lemma LongLabelIsLost(ident: nat, beyond: Byte)
    ensures var name: Bytes := seq(64, _ => 97);
      Labels(name, 255) &&
      var q := Header(ident) + Encoded(name) + Question();
      var r := Read(q + [beyond], |q|, HDR, STEPS);
      !(r.Ok? && Text(r.value) == LowerAll(name))
  {
    hide Read, Text, LowerAll, Encoded, Header, Question, LabelCount, First;
    var name: Bytes := seq(64, _ => 97);
    LabelIs(name, name);
    QueryRoundTrip(name, ident, beyond);
  }

  /** Reading an encoded name meets no pointer. */
  lemma {:induction false} NoPointers(m: Bytes, last: nat, at: nat, t: Bytes, fuel: nat)
    requires Here(m, at, t) && Labels(t, 63) && at + |t| + 2 <= last < |m|
    ensures !Overruns(m, last, at, fuel)
    decreases |t|
  {
    hide Here, Labels, First;
    LabelAt(m, at, t);
    if First(t) < |t| {
      RestAt(m, at, t);
      NoPointers(m, last, at + 1 + First(t), t[First(t) + 1..], if fuel > 0 then fuel - 1 else 0);
    }
  }

  lemma {:induction false} NoFinalDot(t: Bytes)
    requires Labels(t, 255)
    ensures t != [] && t[|t| - 1] != DOT
    decreases |t|
  {
    var f := First(t);
    if f < |t| {
      NoFinalDot(t[f + 1..]);
    }
  }

  /** A name whose text does not end with a dot has its zero byte itself behind its last label. */
  lemma TextIsDirect(n: Name, t: Bytes)
    requires Text(n) == LowerAll(t) && Labels(t, 255) && n.labels != []
    ensures n.direct
  {
    hide Joined, Labels;
    NoFinalDot(t);
    TextIs(n);
    var l := LowerAll(t);
    assert l[|l| - 1] != DOT;
  }

  /**
    The round trip of the code itself: a query is made for a name and its name is read back.  The text is
    the name's, in lower case, exactly if it has at most 127 labels of at most 63 bytes; it then fits the
    memory it gets, and nothing is read behind the query.
   */
  method ThereAndBack(name: Bytes, ident: nat, beyond: Byte) returns (back: Result<Bytes>, room: int, overrun: bool)
    ensures back.Ok? ==> Labels(name, 255)
    ensures back == Ok(LowerAll(name)) <==> Labels(name, 63) && LabelCount(name) <= 127
    ensures Labels(name, 63) && LabelCount(name) <= 127 ==> room == |name| && !overrun
  {
    hide Read, Text, LowerAll, Labels, Encoded, Header, Question, LabelCount, Overruns;
    var q := CreateNameQuery(name, ident);
    if q.Error? {
      ShorterLabels(name);
      return Error, -1, false;
    }
    var msg := q.value[..];
    back, room, overrun := CopyName(msg, beyond, HDR, true);
    QueryRoundTrip(name, ident, beyond);
    if back == Ok(LowerAll(name)) {
      var m := msg + [beyond];
      assert m == Header(ident) + Encoded(name) + (Question() + [beyond]);
      HereAfter(Header(ident), name, Question() + [beyond]);
      NoPointers(m, |msg|, HDR, name, STEPS);
      TextOfNothing(Read(m, |msg|, HDR, STEPS).value, name);
      TextIsDirect(Read(m, |msg|, HDR, STEPS).value, name);
    }
  }

  lemma {:induction false} ShorterLabels(t: Bytes)
    ensures Labels(t, 63) ==> Labels(t, 255)
    decreases |t|
  {
    var f := First(t);
    if f < |t| {
      ShorterLabels(t[f + 1..]);
    }
  }

  lemma TextOfNothing(n: Name, t: Bytes)
    requires Text(n) == LowerAll(t) && Labels(t, 255)
    ensures n.labels != []
  {
    NoFinalDot(t);
    assert |LowerAll(t)| == |t|;
  }
}
