/**
  The consistent hash balancer of src/stream/ngx_stream_upstream_hash_module.c: the ring of points,
  the search of a point, and the smooth weighted choice among the peers of a point's server.  Server
  names are numbers, which are only compared.
 */
module ConsistentHash {

  const MAX32 := 0x1_0000_0000

  type Server = int

  /** ngx_stream_upstream_chash_point_t */
  datatype Point = Point(hash: nat, server: Server)

  // ---------- the ring ----------

  /** crc32 of a server's name and the previous point's hash, as a 32-bit number. */
  type Crc = (Server, nat) -> nat

  /** The hashes of a server's n points, each made from the one before. */
  function Hashes(crc: Crc, server: Server, prev: nat, n: nat): (r: seq<nat>)
    ensures |r| == n
    decreases n
  {
    if n == 0 then []
    else
      var h := crc(server, prev) % MAX32;
      [h] + Hashes(crc, server, h, n - 1)
  }

  datatype Member = Member(server: Server, weight: nat)

  function PointsOf(server: Server, hashes: seq<nat>): (r: seq<Point>)
    ensures |r| == |hashes| && forall i :: 0 <= i < |r| ==> r[i] == Point(hashes[i], server)
  {
    seq(|hashes|, i requires 0 <= i < |hashes| => Point(hashes[i], server))
  }

  /** All points, 160 for each unit of weight, in the order of the servers. */
  function AllPoints(crc: Crc, members: seq<Member>): seq<Point> {
    if members == [] then []
    else
      var k := |members| - 1;
      AllPoints(crc, members[..k])
      + PointsOf(members[k].server, Hashes(crc, members[k].server, 0, members[k].weight * 160))
  }

  /** A server's points: the first is made from zero, each further one from the hash before. */
  lemma {:induction false} HashesChain(crc: Crc, server: Server, prev: nat, n: nat, i: nat)
    requires i < n
    ensures Hashes(crc, server, prev, n)[i]
         == crc(server, if i == 0 then prev else Hashes(crc, server, prev, n)[i - 1]) % MAX32
    decreases i
  {
    if i > 0 {
      HashesChain(crc, server, crc(server, prev) % MAX32, n - 1, i - 1);
    }
  }

  function CountOf(ps: seq<Point>, server: Server): nat {
    if ps == [] then 0 else CountOf(ps[..|ps| - 1], server) + if ps[|ps| - 1].server == server then 1 else 0
  }

  function WeightOf(members: seq<Member>, server: Server): nat {
    if members == [] then 0
    else
      var k := |members| - 1;
      WeightOf(members[..k], server) + if members[k].server == server then members[k].weight else 0
  }

  lemma {:induction false} CountJoin(a: seq<Point>, b: seq<Point>, server: Server)
    ensures CountOf(a + b, server) == CountOf(a, server) + CountOf(b, server)
  {
    if b == [] {
      assert a + b == a;
    } else {
      var k := |b| - 1;
      assert (a + b)[..|a| + k] == a + b[..k];
      CountJoin(a, b[..k], server);
    }
  }

  lemma {:induction false} CountAll(ps: seq<Point>, server: Server, owner: Server)
    requires forall i :: 0 <= i < |ps| ==> ps[i].server == owner
    ensures CountOf(ps, server) == if server == owner then |ps| else 0
  {
    if ps != [] {
      CountAll(ps[..|ps| - 1], server, owner);
    }
  }

  /** A server has 160 points for each unit of its weight. */
  lemma {:induction false} PointsByWeight(crc: Crc, members: seq<Member>, server: Server)
    ensures CountOf(AllPoints(crc, members), server) == 160 * WeightOf(members, server)
  {
    hide Hashes, CountOf;
    if members == [] {
      CountAll([], server, server);
    } else {
      var k := |members| - 1;
      var m := members[k];
      var last := PointsOf(m.server, Hashes(crc, m.server, 0, m.weight * 160));
      PointsByWeight(crc, members[..k], server);
      CountJoin(AllPoints(crc, members[..k]), last, server);
      CountAll(last, server, m.server);
    }
  }

  ghost predicate Sorted(ps: seq<Point>) {
    forall i, j :: 0 <= i < j < |ps| ==> ps[i].hash <= ps[j].hash
  }

  ghost predicate Increasing(ps: seq<Point>) {
    forall i, j :: 0 <= i < j < |ps| ==> ps[i].hash < ps[j].hash
  }

  /** ngx_qsort gives the same points in order; among equal hashes any order. */
  ghost predicate Sorts(qsort: seq<Point> -> seq<Point>) {
    forall s :: Sorted(qsort(s)) && multiset(qsort(s)) == multiset(s)
  }

  /** A ring: increasing, with points of the list only, and with every hash of the list. */
  ghost predicate RingOf(ring: seq<Point>, ps: seq<Point>) {
    && Increasing(ring)
    && (forall i :: 0 <= i < |ring| ==> ring[i] in ps)
    && (forall p :: p in ps ==> HashIn(ring, p.hash))
  }

  ghost predicate HashIn(ring: seq<Point>, h: nat) {
    exists i :: 0 <= i < |ring| && ring[i].hash == h
  }

  /** The loop that makes the points of one server. */
  method AddServer(crc: Crc, m: Member, ps: seq<Point>) returns (r: seq<Point>)
    ensures r == ps + PointsOf(m.server, Hashes(crc, m.server, 0, m.weight * 160))
  {
    r := ps;
    var prev: nat := 0;
    ghost var all := Hashes(crc, m.server, 0, m.weight * 160);
    for j := 0 to m.weight * 160
      invariant |r| == |ps| + j && r[..|ps|] == ps
      invariant forall i :: 0 <= i < j ==> r[|ps| + i] == Point(all[i], m.server)
      invariant Hashes(crc, m.server, prev, m.weight * 160 - j) == all[j..]
    {
      var hash := crc(m.server, prev) % MAX32;
      r := r + [Point(hash, m.server)];
      prev := hash;
    }
  }

  /** ngx_stream_upstream_init_chash; the memory for the points is there. */
  method InitChash(crc: Crc, members: seq<Member>, qsort: seq<Point> -> seq<Point>) returns (ring: seq<Point>)
    requires Sorts(qsort)
    requires exists m :: m in members && m.weight > 0
    ensures RingOf(ring, AllPoints(crc, members)) && ring != []
  {
    var points := [];
    for k := 0 to |members|
      invariant points == AllPoints(crc, members[..k])
    {
      points := AddServer(crc, members[k], points);
      assert members[..k + 1][..k] == members[..k];
    }
    assert members[..|members|] == members;
    SomePoint(crc, members);
    var sorted := qsort(points);
    assert |sorted| == |multiset(sorted)| == |multiset(points)|;
    ring := Dedupe(sorted);
    RingOfSorted(ring, sorted, points);
  }

  /** The loop that keeps one point of each hash, in place. */
  method Dedupe(sorted: seq<Point>) returns (ring: seq<Point>)
    requires Sorted(sorted) && sorted != []
    ensures RingOf(ring, sorted) && ring != []
  {
    hide RingOf;
    OnePoint(sorted[0]);
    assert sorted[..1] == [sorted[0]];
    var point := new Point[|sorted|](i requires 0 <= i < |sorted| => sorted[i]);
    var i := 0;
    assert point[..1] == [sorted[0]];
    for j := 1 to |sorted|
      invariant 0 <= i < j <= |sorted| == point.Length
      invariant forall k :: j <= k < |sorted| ==> point[k] == sorted[k]
      invariant RingOf(point[..i + 1], sorted[..j])
      invariant point[i].hash == sorted[j - 1].hash
    {
      assert sorted[..j + 1] == sorted[..j] + [sorted[j]];
      assert sorted[j - 1].hash <= sorted[j].hash;
      ghost var before := point[..i + 1];
      if point[i].hash != point[j].hash {
        i := i + 1;
        point[i] := point[j];
        assert point[..i + 1] == before + [sorted[j]];
        NewHash(before, sorted[..j], sorted[j]);
      } else {
        OldHash(before, sorted[..j], sorted[j]);
      }
    }
    assert sorted[..|sorted|] == sorted;
    return point[..i + 1];
  }

  lemma OnePoint(p: Point)
    ensures RingOf([p], [p])
  {
    assert HashIn([p], p.hash) by {
      assert [p][0].hash == p.hash;
    }
  }

  lemma NewHash(ring: seq<Point>, ps: seq<Point>, p: Point)
    requires RingOf(ring, ps) && ring != [] && ring[|ring| - 1].hash < p.hash
    ensures RingOf(ring + [p], ps + [p])
  {
    var r := ring + [p];
    forall q | q in ps + [p] ensures HashIn(r, q.hash) {
      if q in ps {
        var i :| 0 <= i < |ring| && ring[i].hash == q.hash;
        assert r[i].hash == q.hash;
      } else {
        assert r[|ring|].hash == q.hash;
      }
    }
  }

  lemma OldHash(ring: seq<Point>, ps: seq<Point>, p: Point)
    requires RingOf(ring, ps) && ring != [] && ring[|ring| - 1].hash == p.hash
    ensures RingOf(ring, ps + [p])
  {
  }

  lemma RingOfSorted(ring: seq<Point>, sorted: seq<Point>, ps: seq<Point>)
    requires RingOf(ring, sorted) && multiset(sorted) == multiset(ps)
    ensures RingOf(ring, ps)
  {
    assert forall p :: p in ps <==> p in multiset(ps);
    assert forall p :: p in sorted <==> p in multiset(sorted);
  }

  lemma SomePoint(crc: Crc, members: seq<Member>)
    requires exists m :: m in members && m.weight > 0
    ensures AllPoints(crc, members) != []
  {
  }

  // ---------- finding a point ----------

  /** k is the first point whose hash is not below `hash`; |ring| if there is none. */
  ghost predicate FirstAtLeast(ring: seq<Point>, hash: nat, k: nat) {
    && k <= |ring|
    && (forall i :: 0 <= i < k ==> ring[i].hash < hash)
    && (k < |ring| ==> hash <= ring[k].hash)
  }

  /** ngx_stream_upstream_find_chash_point */
  method FindPoint(ring: seq<Point>, hash: nat) returns (r: nat)
    requires Increasing(ring)
    ensures FirstAtLeast(ring, hash, r)
  {
    var i, j := 0, |ring|;
    while i < j
      invariant 0 <= i <= j <= |ring|
      invariant forall k :: 0 <= k < i ==> ring[k].hash < hash
      invariant forall k :: j <= k < |ring| ==> hash < ring[k].hash
    {
      var k := (i + j) / 2;
      if hash > ring[k].hash {
        i := k + 1;
      } else if hash < ring[k].hash {
        j := k;
      } else {
        return k;
      }
    }
    return i;
  }

  /** hp->hash % points->number */
  function Slot(k: nat, n: nat): (r: nat)
    requires n > 0
    ensures r < n && (k < n ==> r == k) && (k == n ==> r == 0)
  {
    k % n
  }

  /** The server that a key with this hash belongs to. */
  ghost predicate Owns(ring: seq<Point>, hash: nat, server: Server) {
    exists k: nat :: FirstAtLeast(ring, hash, k) && ring != [] && ring[Slot(k, |ring|)].server == server
  }

  /** A different server never has the same hash. */
  ghost predicate NoShared(ps: seq<Point>) {
    forall p, q :: p in ps && q in ps && p.hash == q.hash ==> p == q
  }

  function Without(ps: seq<Point>, server: Server): seq<Point> {
    if ps == [] then []
    else
      var k := |ps| - 1;
      Without(ps[..k], server) + if ps[k].server == server then [] else [ps[k]]
  }

  lemma {:induction false} WithoutIs(ps: seq<Point>, server: Server)
    ensures forall p :: p in Without(ps, server) <==> p in ps && p.server != server
  {
    if ps != [] {
      var k := |ps| - 1;
      WithoutIs(ps[..k], server);
      assert ps == ps[..k] + [ps[k]];
    }
  }

  lemma Before(r: seq<Point>, j: nat, k: nat)
    requires Increasing(r) && j < |r| && k < |r| && r[j].hash < r[k].hash
    ensures j < k
  {
  }

  /** A ring's point, and where the point of the same hash is in a ring of fewer points. */
  lemma SamePoint(r: seq<Point>, ps: seq<Point>, r': seq<Point>, ps': seq<Point>, k: nat) returns (k': nat)
    requires RingOf(r, ps) && RingOf(r', ps') && NoShared(ps') && k < |r|
    requires forall p :: p in ps' ==> p in ps
    requires r[k] in ps'
    ensures k' < |r'| && r'[k'] == r[k]
  {
    var i :| 0 <= i < |r'| && r'[i].hash == r[k].hash;
    k' := i;
    assert r'[i] in ps' && r[k] in ps;
  }

  lemma SmallerHasPoint(r: seq<Point>, ps: seq<Point>, r': seq<Point>, ps': seq<Point>, i: nat) returns (j: nat)
    requires RingOf(r, ps) && RingOf(r', ps') && i < |r'|
    requires forall p :: p in ps' ==> p in ps
    ensures j < |r| && r[j].hash == r'[i].hash
  {
    assert r'[i] in ps' && r'[i] in ps;
    assert HashIn(r, r'[i].hash);
    j :| 0 <= j < |r| && r[j].hash == r'[i].hash;
  }

  lemma OwnerStays(r: seq<Point>, ps: seq<Point>, r': seq<Point>, ps': seq<Point>, hash: nat, k: nat)
    requires RingOf(r, ps) && RingOf(r', ps') && NoShared(ps') && forall p :: p in ps' ==> p in ps
    requires FirstAtLeast(r, hash, k) && k < |r| && r[k] in ps'
    ensures Owns(r', hash, r[k].server)
  {
    hide RingOf;
    var k' := SamePoint(r, ps, r', ps', k);
    RingUp(r, ps);
    RingUp(r', ps');
    forall i | 0 <= i < k' ensures r'[i].hash < hash {
      var j := SmallerHasPoint(r, ps, r', ps', i);
      assert r'[i].hash < r'[k'].hash;
      Before(r, j, k);
    }
    assert FirstAtLeast(r', hash, k');
  }

  lemma WrapStays(r: seq<Point>, ps: seq<Point>, r': seq<Point>, ps': seq<Point>, hash: nat)
    requires RingOf(r, ps) && RingOf(r', ps') && NoShared(ps') && forall p :: p in ps' ==> p in ps
    requires r != [] && FirstAtLeast(r, hash, |r|) && r[0] in ps'
    ensures Owns(r', hash, r[0].server)
  {
    hide RingOf;
    var k' := SamePoint(r, ps, r', ps', 0);
    RingUp(r, ps);
    RingUp(r', ps');
    forall i | 0 <= i < |r'| ensures r'[i].hash < hash {
      var j := SmallerHasPoint(r, ps, r', ps', i);
    }
    if k' > 0 {
      var j := SmallerHasPoint(r, ps, r', ps', 0);
      assert r'[0].hash < r'[k'].hash;
      Before(r, j, 0);
    }
    assert FirstAtLeast(r', hash, |r'|);
  }

  lemma RingUp(r: seq<Point>, ps: seq<Point>)
    requires RingOf(r, ps)
    ensures Increasing(r) && forall i :: 0 <= i < |r| ==> r[i] in ps
  {
  }

  /**
    Taking a server away moves only the keys that were its own, if no two of the others have a point of
    one hash; the points that one of them may share with the server that goes do no harm.
   */
  lemma RemovalMovesOnlyItsKeys(crc: Crc, members: seq<Member>, gone: Server, r: seq<Point>, r': seq<Point>,
                                hash: nat, owner: Server)
    requires RingOf(r, AllPoints(crc, members)) && NoShared(AllPoints(crc, Drop(members, gone)))
    requires RingOf(r', AllPoints(crc, Drop(members, gone)))
    requires Owns(r, hash, owner) && owner != gone
    ensures Owns(r', hash, owner)
  {
    hide RingOf, AllPoints, NoShared, Without, Drop, Increasing, Owns, FirstAtLeast;
    var ps := AllPoints(crc, members);
    var ps' := Without(ps, gone);
    DropPoints(crc, members, gone);
    WithoutIs(ps, gone);
    var k := OwnerAt(r, hash, owner);
    RingUp(r, ps);
    if k < |r| {
      OwnerStays(r, ps, r', ps', hash, k);
    } else {
      WrapStays(r, ps, r', ps', hash);
    }
  }

  lemma OwnerAt(r: seq<Point>, hash: nat, owner: Server) returns (k: nat)
    requires Owns(r, hash, owner)
    ensures FirstAtLeast(r, hash, k) && r != [] && k <= |r|
    ensures r[if k < |r| then k else 0].server == owner
  {
    hide Slot;
    k :| FirstAtLeast(r, hash, k) && r[Slot(k, |r|)].server == owner;
  }

  function Drop(members: seq<Member>, gone: Server): seq<Member> {
    if members == [] then []
    else
      var k := |members| - 1;
      Drop(members[..k], gone) + if members[k].server == gone then [] else [members[k]]
  }

  lemma {:induction false} DropPoints(crc: Crc, members: seq<Member>, gone: Server)
    ensures AllPoints(crc, Drop(members, gone)) == Without(AllPoints(crc, members), gone)
  {
    hide Hashes;
    if members != [] {
      var k := |members| - 1;
      var m := members[k];
      DropPoints(crc, members[..k], gone);
      var last := PointsOf(m.server, Hashes(crc, m.server, 0, m.weight * 160));
      WithoutJoin(AllPoints(crc, members[..k]), last, gone);
      WithoutAll(last, m.server, gone);
      var rest := Drop(members[..k], gone);
      if m.server != gone {
        assert (rest + [m])[..|rest|] == rest;
      } else {
        assert rest + [] == rest;
      }
    }
  }

  lemma {:induction false} WithoutJoin(a: seq<Point>, b: seq<Point>, server: Server)
    ensures Without(a + b, server) == Without(a, server) + Without(b, server)
  {
    if b == [] {
      assert a + b == a;
    } else {
      var k := |b| - 1;
      WithoutJoin(a, b[..k], server);
      assert (a + b)[..|a| + k] == a + b[..k];
    }
  }

  lemma {:induction false} WithoutAll(ps: seq<Point>, server: Server, gone: Server)
    requires forall i :: 0 <= i < |ps| ==> ps[i].server == server
    ensures Without(ps, gone) == if server == gone then [] else ps
  {
    if ps != [] {
      WithoutAll(ps[..|ps| - 1], server, gone);
    }
  }
}
