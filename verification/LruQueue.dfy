/**
  The least-recently-used queues that both file caches keep: intrusive lists from which any entry
  can be taken, and to whose head it returns.  A queue is the sequence of its entries' addresses,
  head first.
 */
module LruQueue {

  /** The address of an entry. */
  type Ptr = int

  /** q lists each element of s exactly once. */
  ghost predicate Lists(q: seq<Ptr>, s: set<Ptr>) {
    if q == [] then s == {} else q[0] in s && Lists(q[1..], s - {q[0]})
  }

  /** ngx_queue_remove */
  function Without(q: seq<Ptr>, x: Ptr): seq<Ptr> {
    if q == [] then [] else if q[0] == x then q[1..] else [q[0]] + Without(q[1..], x)
  }

  lemma {:induction false} ListsFacts(q: seq<Ptr>, s: set<Ptr>)
    requires Lists(q, s)
    ensures |q| == |s|
    ensures forall x :: x in q <==> x in s
    ensures forall i, j :: 0 <= i < j < |q| ==> q[i] != q[j]
  {
    if q != [] {
      ListsFacts(q[1..], s - {q[0]});
      assert forall x :: x in q <==> x == q[0] || x in q[1..];
      forall i, j | 0 <= i < j < |q| ensures q[i] != q[j] {
        assert q[j] == q[1..][j - 1];
        if i > 0 {
          assert q[i] == q[1..][i - 1];
        }
      }
    }
  }

  lemma {:induction false} ListsWithout(q: seq<Ptr>, s: set<Ptr>, x: Ptr)
    requires Lists(q, s) && x in s
    ensures Lists(Without(q, x), s - {x})
  {
    if q[0] != x {
      ListsWithout(q[1..], s - {q[0]}, x);
      assert s - {q[0]} - {x} == s - {x} - {q[0]};
    }
  }

  lemma ListsPush(q: seq<Ptr>, s: set<Ptr>, x: Ptr)
    requires Lists(q, s) && x !in s
    ensures Lists([x] + q, s + {x})
  {
    assert s + {x} - {x} == s;
    assert ([x] + q)[1..] == q;
  }

  lemma {:induction false} ListsLast(q: seq<Ptr>, s: set<Ptr>)
    requires Lists(q, s) && q != []
    ensures q[|q| - 1] in s && Without(q, q[|q| - 1]) == q[..|q| - 1]
  {
    var x := q[|q| - 1];
    if |q| > 1 {
      ListsLast(q[1..], s - {q[0]});
      assert q[1..][|q| - 2] == x;
      assert q[..|q| - 1] == [q[0]] + q[1..][..|q| - 2];
    }
  }

  /** Taking an entry out leaves the others as they were. */
  lemma {:induction false} WithoutSplits(q: seq<Ptr>, x: Ptr) returns (k: nat)
    requires x in q
    ensures k < |q| && q[k] == x && Without(q, x) == q[..k] + q[k + 1..]
  {
    if q[0] == x {
      k := 0;
    } else {
      var k' := WithoutSplits(q[1..], x);
      k := k' + 1;
      assert q[1..][..k'] == q[1..k];
      assert q[1..][k' + 1..] == q[k + 1..];
    }
  }
}
