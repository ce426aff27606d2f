/**
  The intrusive doubly linked queues of src/core/ngx_queue.h and ngx_queue.c: the macros that relink
  elements, the middle of a queue, and its stable insertion sort.  A queue is a sentinel and the
  sequence of its elements; next and prev are what memory holds at their addresses.
 */
module Queue {
  import opened LruQueue

  type Mem = map<Ptr, Ptr>

  // ---------- chains of links ----------

  ghost predicate Linked(next: Mem, prev: Mem, a: Ptr, b: Ptr) {
    a in next && b in prev && next[a] == b && prev[b] == a
  }

  /** Each of these is linked with the one after it. */
  ghost predicate Chain(next: Mem, prev: Mem, c: seq<Ptr>) {
    |c| <= 1 || (Linked(next, prev, c[0], c[1]) && Chain(next, prev, c[1..]))
  }

  lemma {:induction false} ChainJoin(next: Mem, prev: Mem, a: seq<Ptr>, b: seq<Ptr>)
    requires a != [] && b != []
    ensures Chain(next, prev, a + b) <==>
      Chain(next, prev, a) && Linked(next, prev, a[|a| - 1], b[0]) && Chain(next, prev, b)
  {
    if |a| == 1 {
      assert (a + b)[1..] == b;
    } else {
      ChainJoin(next, prev, a[1..], b);
      assert (a + b)[1..] == a[1..] + b;
    }
  }

  /** A chain depends on the next links of all but its last, and the prev links of all but its first. */
  lemma {:induction false} ChainSame(next: Mem, prev: Mem, next': Mem, prev': Mem, c: seq<Ptr>)
    requires Chain(next, prev, c)
    requires forall i :: 0 <= i < |c| - 1 ==> c[i] in next ==> c[i] in next' && next'[c[i]] == next[c[i]]
    requires forall i :: 1 <= i < |c| ==> c[i] in prev ==> c[i] in prev' && prev'[c[i]] == prev[c[i]]
    ensures Chain(next', prev', c)
  {
    if |c| > 1 {
      ChainSame(next, prev, next', prev', c[1..]);
    }
  }

  lemma {:induction false} ChainAt(next: Mem, prev: Mem, c: seq<Ptr>, i: nat)
    requires Chain(next, prev, c) && i + 1 < |c|
    ensures Linked(next, prev, c[i], c[i + 1])
  {
    if i > 0 {
      ChainAt(next, prev, c[1..], i - 1);
    }
  }

  // ---------- queues ----------

  ghost predicate Distinct(h: Ptr, q: seq<Ptr>) {
    h !in q && forall i, j :: 0 <= i < j < |q| ==> q[i] != q[j]
  }

  /** From the sentinel through the elements and back. */
  function Round(h: Ptr, q: seq<Ptr>): seq<Ptr> {
    [h] + q + [h]
  }

  ghost predicate Queue(next: Mem, prev: Mem, h: Ptr, q: seq<Ptr>) {
    Distinct(h, q) && Chain(next, prev, Round(h, q))
  }

  /** The element at index i; the sentinel before the first and after the last. */
  function At(h: Ptr, q: seq<Ptr>, i: int): Ptr {
    if 0 <= i < |q| then q[i] else h
  }

  lemma QueueAt(next: Mem, prev: Mem, h: Ptr, q: seq<Ptr>, i: int)
    requires Queue(next, prev, h, q) && -1 <= i < |q|
    ensures Linked(next, prev, At(h, q, i), At(h, q, i + 1))
  {
    ChainAt(next, prev, Round(h, q), i + 1);
  }

  lemma NotItsSentinel(next: Mem, prev: Mem, h: Ptr, q: seq<Ptr>)
    requires Queue(next, prev, h, q)
    ensures forall i :: 0 <= i < |q| ==> q[i] != h
    ensures forall i, j :: 0 <= i < j < |q| ==> q[i] != q[j]
  {
  }

  /** Changing the links of others leaves a queue alone. */
  lemma QueueSame(next: Mem, prev: Mem, next': Mem, prev': Mem, h: Ptr, q: seq<Ptr>)
    requires Queue(next, prev, h, q)
    requires forall p :: p == h || p in q ==> (p in next ==> p in next' && next'[p] == next[p])
    requires forall p :: p == h || p in q ==> (p in prev ==> p in prev' && prev'[p] == prev[p])
    ensures Queue(next', prev', h, q)
  {
    ChainSame(next, prev, next', prev', Round(h, q));
  }

  lemma LinkedIs(next: Mem, prev: Mem, a: Ptr, b: Ptr)
    ensures Linked(next, prev, a, b) <==> a in next && b in prev && next[a] == b && prev[b] == a
  {
  }

  /** The neighbours of a place in a queue occur nowhere else. */
  lemma Neighbours(h: Ptr, q: seq<Ptr>, i: nat)
    requires Distinct(h, q) && i <= |q|
    ensures forall m :: 0 <= m < |q| ==> q[m] != h
    ensures forall m :: 0 <= m < i - 1 ==> q[m] != At(h, q, i - 1)
    ensures forall m :: i <= m < |q| ==> q[m] != At(h, q, i - 1)
    ensures forall m :: 0 <= m < i ==> q[m] != At(h, q, i)
    ensures forall m :: i < m < |q| ==> q[m] != At(h, q, i)
  {
  }

  lemma EndsAt(h: Ptr, q: seq<Ptr>, i: nat)
    requires i <= |q|
    ensures ([h] + q[..i])[|[h] + q[..i]| - 1] == At(h, q, i - 1)
    ensures (q[i..] + [h])[0] == At(h, q, i)
  {
  }

  lemma DistinctWithout(h: Ptr, q: seq<Ptr>, i: nat)
    requires Distinct(h, q) && i < |q|
    ensures Distinct(h, q[..i] + q[i + 1..])
    ensures forall m :: 0 <= m < i ==> q[m] != At(h, q, i + 1)
    ensures forall m :: i + 1 < m < |q| ==> q[m] != At(h, q, i + 1)
  {
  }

  lemma DistinctWith(h: Ptr, q: seq<Ptr>, i: nat, x: Ptr)
    requires Distinct(h, q) && i <= |q| && x != h && x !in q
    ensures Distinct(h, q[..i] + [x] + q[i..])
    ensures forall m :: 0 <= m < |q| ==> q[m] != x
  {
  }

  /** What the two assignments of ngx_queue_remove do. */
  lemma RemoveKeeps(next: Mem, prev: Mem, h: Ptr, q: seq<Ptr>, i: nat)
    requires Queue(next, prev, h, q) && i < |q|
    ensures var a, b := At(h, q, i - 1), At(h, q, i + 1);
      Queue(next[a := b], prev[b := a], h, q[..i] + q[i + 1..])
  {
    hide Distinct, Linked;
    var front, back := [h] + q[..i], q[i + 1..] + [h];
    assert Round(h, q) == front + ([q[i]] + back);
    ChainJoin(next, prev, front, [q[i]] + back);
    ChainJoin(next, prev, [q[i]], back);
    Neighbours(h, q, i);
    DistinctWithout(h, q, i);
    var a, b := At(h, q, i - 1), At(h, q, i + 1);
    var next', prev' := next[a := b], prev[b := a];
    EndsAt(h, q, i);
    EndsAt(h, q, i + 1);
    assert front[|front| - 1] == a && back[0] == b;
    ChainSame(next, prev, next', prev', front);
    ChainSame(next, prev, next', prev', back);
    LinkedIs(next', prev', a, b);
    ChainJoin(next', prev', front, back);
    assert Round(h, q[..i] + q[i + 1..]) == front + back;
  }

  /** What the four assignments of ngx_queue_insert_head and ngx_queue_insert_after do. */
  lemma InsertKeeps(next: Mem, prev: Mem, h: Ptr, q: seq<Ptr>, i: nat, x: Ptr)
    requires Queue(next, prev, h, q) && i <= |q| && x != h && x !in q
    ensures var a, b := At(h, q, i - 1), At(h, q, i);
      Queue(next[x := b][a := x], prev[b := x][x := a], h, q[..i] + [x] + q[i..])
  {
    hide Distinct, Linked;
    var front, back := [h] + q[..i], q[i..] + [h];
    assert Round(h, q) == front + back;
    ChainJoin(next, prev, front, back);
    Neighbours(h, q, i);
    DistinctWith(h, q, i, x);
    var a, b := At(h, q, i - 1), At(h, q, i);
    var next', prev' := next[x := b][a := x], prev[b := x][x := a];
    EndsAt(h, q, i);
    assert front[|front| - 1] == a && back[0] == b;
    ChainSame(next, prev, next', prev', front);
    ChainSame(next, prev, next', prev', back);
    LinkedIs(next', prev', a, x);
    LinkedIs(next', prev', x, b);
    ChainJoin(next', prev', [x], back);
    ChainJoin(next', prev', front, [x] + back);
    assert Round(h, q[..i] + [x] + q[i..]) == front + ([x] + back);
  }

  lemma DistinctParts(h: Ptr, q: seq<Ptr>, i: nat, n: Ptr)
    requires Distinct(h, q) && i < |q| && n != h && n !in q
    ensures Distinct(h, q[..i]) && Distinct(n, q[i..])
    ensures forall m :: 0 <= m < |q| ==> q[m] != n && q[m] != h
    ensures forall m :: 0 <= m < i ==> q[m] != q[i] && q[m] != q[|q| - 1]
    ensures forall m :: i < m < |q| ==> q[m] != q[i]
    ensures forall m :: i <= m < |q| - 1 ==> q[m] != q[|q| - 1]
    ensures forall m :: i <= m < |q| ==> q[m] != At(h, q, i - 1)
    ensures forall m :: 0 <= m < i - 1 ==> q[m] != At(h, q, i - 1)
  {
    assert q == q[..i] + q[i..];
  }

  /** What ngx_queue_split does: the elements from i on get the sentinel n. */
  lemma SplitKeeps(next: Mem, prev: Mem, h: Ptr, q: seq<Ptr>, i: nat, n: Ptr)
    requires Queue(next, prev, h, q) && i < |q| && n != h && n !in q
    ensures var last, a := q[|q| - 1], At(h, q, i - 1);
      var next', prev' := next[last := n][n := q[i]][a := h], prev[n := last][h := a][q[i] := n];
      Queue(next', prev', h, q[..i]) && Queue(next', prev', n, q[i..])
  {
    hide Distinct, Linked;
    DistinctParts(h, q, i, n);
    var front, back := [h] + q[..i], q[i..];
    assert Round(h, q) == front + (back + [h]);
    ChainJoin(next, prev, front, back + [h]);
    ChainJoin(next, prev, back, [h]);
    var last, a := q[|q| - 1], At(h, q, i - 1);
    assert front[|front| - 1] == a && back[|back| - 1] == last && back[0] == q[i];
    var next', prev' := next[last := n][n := q[i]][a := h], prev[n := last][h := a][q[i] := n];
    ChainSame(next, prev, next', prev', front);
    ChainSame(next, prev, next', prev', back);
    Ends(next', prev', h, q[..i], front);
    assert Round(n, q[i..]) == [n] + (back + [n]);
    LinkedIs(next', prev', a, h);
    LinkedIs(next', prev', last, n);
    LinkedIs(next', prev', n, q[i]);
    ChainJoin(next', prev', back, [n]);
    ChainJoin(next', prev', [n], back + [n]);
  }

  lemma Ends(next: Mem, prev: Mem, h: Ptr, q: seq<Ptr>, front: seq<Ptr>)
    requires front == [h] + q
    ensures Chain(next, prev, Round(h, q)) <==>
      Chain(next, prev, front) && Linked(next, prev, front[|front| - 1], h)
  {
    ChainJoin(next, prev, front, [h]);
  }

  lemma DistinctJoin(h: Ptr, q: seq<Ptr>, n: Ptr, r: seq<Ptr>)
    requires Distinct(h, q) && Distinct(n, r) && h !in r && forall p :: p in q ==> p !in r
    ensures Distinct(h, q + r)
    ensures forall m :: 0 <= m < |r| ==> r[m] != h && r[m] != At(h, q, |q| - 1)
    ensures forall m, k :: 0 <= m < |q| && 0 <= k < |r| ==> q[m] != r[k]
    ensures forall m :: 0 <= m < |q| - 1 ==> q[m] != q[|q| - 1]
    ensures forall m :: 0 <= m < |r| - 1 ==> r[m] != r[|r| - 1]
    ensures forall m :: 0 < m < |r| ==> r[m] != r[0]
    ensures forall m :: 0 <= m < |q| ==> q[m] != h
  {
    forall m, k | 0 <= m < |q| && 0 <= k < |r| ensures q[m] != r[k] {
      assert q[m] in q && r[k] in r;
    }
    forall i, j | 0 <= i < j < |q + r| ensures (q + r)[i] != (q + r)[j] {
    }
  }

  /** What ngx_queue_add does: the elements of n's queue follow those of h's. */
  lemma AddKeeps(next: Mem, prev: Mem, h: Ptr, q: seq<Ptr>, n: Ptr, r: seq<Ptr>)
    requires Queue(next, prev, h, q) && Queue(next, prev, n, r) && r != []
    requires h != n && h !in r && n !in q && forall p :: p in q ==> p !in r
    ensures var last, end := At(h, q, |q| - 1), r[|r| - 1];
      Queue(next[last := r[0]][end := h], prev[r[0] := last][h := end], h, q + r)
  {
    hide Distinct, Linked;
    DistinctJoin(h, q, n, r);
    var front := [h] + q;
    Ends(next, prev, h, q, front);
    assert Round(n, r) == [n] + (r + [n]);
    ChainJoin(next, prev, [n], r + [n]);
    ChainJoin(next, prev, r, [n]);
    var last, end := At(h, q, |q| - 1), r[|r| - 1];
    assert front[|front| - 1] == last;
    var next', prev' := next[last := r[0]][end := h], prev[r[0] := last][h := end];
    ChainSame(next, prev, next', prev', front);
    ChainSame(next, prev, next', prev', r);
    LinkedIs(next', prev', last, r[0]);
    LinkedIs(next', prev', end, h);
    ChainJoin(next', prev', r, [h]);
    ChainJoin(next', prev', front, r + [h]);
    assert Round(h, q + r) == front + (r + [h]);
  }

  // ---------- the order of a sort ----------

  /** A comparison as ngx_queue_sort wants it: total and transitive. */
  ghost predicate Preorder(cmp: (Ptr, Ptr) -> int) {
    && (forall a, b :: cmp(a, b) <= 0 || cmp(b, a) <= 0)
    && (forall a, b, c :: cmp(a, b) <= 0 && cmp(b, c) <= 0 ==> cmp(a, c) <= 0)
  }

  ghost predicate Sorted(cmp: (Ptr, Ptr) -> int, s: seq<Ptr>) {
    forall i, j :: 0 <= i < j < |s| ==> cmp(s[i], s[j]) <= 0
  }

  /** x goes after the last element that does not come after it. */
  function Slot(cmp: (Ptr, Ptr) -> int, s: seq<Ptr>, x: Ptr): (k: nat)
    ensures k <= |s|
    ensures k > 0 ==> cmp(s[k - 1], x) <= 0
    ensures forall m :: k <= m < |s| ==> cmp(s[m], x) > 0
  {
    if s == [] || cmp(s[|s| - 1], x) <= 0 then |s| else Slot(cmp, s[..|s| - 1], x)
  }

  lemma SlotStep(cmp: (Ptr, Ptr) -> int, s: seq<Ptr>, k: nat, x: Ptr)
    requires 0 < k <= |s|
    ensures Slot(cmp, s[..k], x) == if cmp(s[k - 1], x) <= 0 then k else Slot(cmp, s[..k - 1], x)
  {
    assert s[..k][..k - 1] == s[..k - 1];
  }

  lemma SlotNone(cmp: (Ptr, Ptr) -> int, s: seq<Ptr>, x: Ptr)
    requires s == []
    ensures Slot(cmp, s, x) == 0
  {
  }

  function Inserted(cmp: (Ptr, Ptr) -> int, s: seq<Ptr>, x: Ptr): seq<Ptr> {
    var k := Slot(cmp, s, x);
    s[..k] + [x] + s[k..]
  }

  /** The elements of q, sorted by insertion. */
  function SortedBy(cmp: (Ptr, Ptr) -> int, q: seq<Ptr>): (r: seq<Ptr>)
    ensures |r| == |q|
  {
    if q == [] then [] else Inserted(cmp, SortedBy(cmp, q[..|q| - 1]), q[|q| - 1])
  }

  lemma {:induction false} SortIsPermutation(cmp: (Ptr, Ptr) -> int, q: seq<Ptr>)
    ensures multiset(SortedBy(cmp, q)) == multiset(q)
  {
    hide Inserted;
    if q != [] {
      SortIsPermutation(cmp, q[..|q| - 1]);
      InsertedIsPermutation(cmp, SortedBy(cmp, q[..|q| - 1]), q[|q| - 1]);
      assert q == q[..|q| - 1] + [q[|q| - 1]];
    }
  }

  lemma InsertedIsPermutation(cmp: (Ptr, Ptr) -> int, s: seq<Ptr>, x: Ptr)
    ensures multiset(Inserted(cmp, s, x)) == multiset(s) + multiset{x}
  {
    hide Slot;
    var k := Slot(cmp, s, x);
    assert s == s[..k] + s[k..];
  }

  lemma {:induction false} SortIsSorted(cmp: (Ptr, Ptr) -> int, q: seq<Ptr>)
    requires Preorder(cmp)
    ensures Sorted(cmp, SortedBy(cmp, q))
  {
    if q != [] {
      var s, x := SortedBy(cmp, q[..|q| - 1]), q[|q| - 1];
      SortIsSorted(cmp, q[..|q| - 1]);
      InsertedIsSorted(cmp, s, x);
    }
  }

  lemma InsertedIsSorted(cmp: (Ptr, Ptr) -> int, s: seq<Ptr>, x: Ptr)
    requires Preorder(cmp) && Sorted(cmp, s)
    ensures Sorted(cmp, Inserted(cmp, s, x))
  {
    hide Preorder, Slot;
    var k := Slot(cmp, s, x);
    forall m | 0 <= m < k ensures cmp(s[m], x) <= 0 {
      if m < k - 1 {
        Transitive(cmp, s[m], s[k - 1], x);
      }
    }
    forall m | k <= m < |s| ensures cmp(x, s[m]) <= 0 {
      Total(cmp, x, s[m]);
    }
    var r := Inserted(cmp, s, x);
    forall i, j | 0 <= i < j < |r| ensures cmp(r[i], r[j]) <= 0 {
    }
  }

  lemma Transitive(cmp: (Ptr, Ptr) -> int, a: Ptr, b: Ptr, c: Ptr)
    requires Preorder(cmp) && cmp(a, b) <= 0 && cmp(b, c) <= 0
    ensures cmp(a, c) <= 0
  {
  }

  lemma Total(cmp: (Ptr, Ptr) -> int, a: Ptr, b: Ptr)
    requires Preorder(cmp)
    ensures cmp(a, b) <= 0 || cmp(b, a) <= 0
  {
  }

  /** a stands before b. */
  ghost predicate InOrder(s: seq<Ptr>, a: Ptr, b: Ptr) {
    exists i, j :: 0 <= i < j < |s| && s[i] == a && s[j] == b
  }

  /** Elements that compare equal, or are in order already, stay in order. */
  lemma {:induction false} SortIsStable(cmp: (Ptr, Ptr) -> int, q: seq<Ptr>, i: nat, j: nat)
    requires Preorder(cmp) && i < j < |q| && cmp(q[i], q[j]) <= 0
    ensures InOrder(SortedBy(cmp, q), q[i], q[j])
  {
    hide Inserted, SortedBy, Preorder;
    var n := |q| - 1;
    var s, x := SortedBy(cmp, q[..n]), q[n];
    SortedByIs(cmp, q);
    if j < n {
      SortIsStable(cmp, q[..n], i, j);
      InsertedKeepsOrder(cmp, s, x, q[i], q[j]);
    } else {
      SortIsPermutation(cmp, q[..n]);
      assert q[..n][i] in multiset(q[..n]);
      assert q[i] in s;
      InsertedAfter(cmp, s, x, q[i]);
    }
  }

  lemma SortedByIs(cmp: (Ptr, Ptr) -> int, q: seq<Ptr>)
    requires q != []
    ensures SortedBy(cmp, q) == Inserted(cmp, SortedBy(cmp, q[..|q| - 1]), q[|q| - 1])
  {
  }

  lemma InsertedKeepsOrder(cmp: (Ptr, Ptr) -> int, s: seq<Ptr>, x: Ptr, a: Ptr, b: Ptr)
    requires InOrder(s, a, b)
    ensures InOrder(Inserted(cmp, s, x), a, b)
  {
    hide Slot;
    var k, r := Slot(cmp, s, x), Inserted(cmp, s, x);
    var i, j :| 0 <= i < j < |s| && s[i] == a && s[j] == b;
    assert r[if i < k then i else i + 1] == a && r[if j < k then j else j + 1] == b;
  }

  lemma InsertedAfter(cmp: (Ptr, Ptr) -> int, s: seq<Ptr>, x: Ptr, a: Ptr)
    requires a in s && cmp(a, x) <= 0
    ensures InOrder(Inserted(cmp, s, x), a, x)
  {
    var k, r := Slot(cmp, s, x), Inserted(cmp, s, x);
    var i :| 0 <= i < |s| && s[i] == a;
    assert i < k;
    assert r[i] == a && r[k] == x;
  }

  // ---------- memory ----------

  class Links {
    var next: Mem
    var prev: Mem

    ghost predicate Holds(h: Ptr, q: seq<Ptr>)
      reads this
    {
      Queue(next, prev, h, q)
    }

    /** ngx_queue_init */
    method Init(h: Ptr)
      modifies this
      ensures Holds(h, [])
      ensures next == old(next)[h := h] && prev == old(prev)[h := h]
    {
      prev := prev[h := h];
      next := next[h := h];
      assert Round(h, [])[1..] == [h];
    }

    /** ngx_queue_empty */
    method Empty(h: Ptr, ghost q: seq<Ptr>) returns (r: bool)
      requires Holds(h, q)
      ensures r <==> q == []
    {
      QueueAt(next, prev, h, q, |q| - 1);
      r := h == prev[h];
    }

    /** ngx_queue_remove of the element at index i. */
    method Remove(x: Ptr, ghost h: Ptr, ghost q: seq<Ptr>, ghost i: nat)
      requires Holds(h, q) && i < |q| && x == q[i]
      modifies this
      ensures Holds(h, q[..i] + q[i + 1..])
      ensures next == old(next)[At(h, q, i - 1) := At(h, q, i + 1)]
      ensures prev == old(prev)[At(h, q, i + 1) := At(h, q, i - 1)]
    {
      hide Queue;
      QueueAt(next, prev, h, q, i - 1);
      QueueAt(next, prev, h, q, i);
      RemoveKeeps(next, prev, h, q, i);
      prev := prev[next[x] := prev[x]];
      next := next[prev[x] := next[x]];
    }

    /** ngx_queue_insert_after, and with a = h ngx_queue_insert_head; a stands before index i. */
    method InsertAfter(a: Ptr, x: Ptr, ghost h: Ptr, ghost q: seq<Ptr>, ghost i: nat)
      requires Holds(h, q) && i <= |q| && a == At(h, q, i - 1) && x != h && x !in q
      modifies this
      ensures Holds(h, q[..i] + [x] + q[i..])
      ensures next == old(next)[x := At(h, q, i)][a := x] && prev == old(prev)[At(h, q, i) := x][x := a]
    {
      hide Queue;
      QueueAt(next, prev, h, q, i - 1);
      InsertKeeps(next, prev, h, q, i, x);
      next := next[x := next[a]];
      prev := prev[next[x] := x];
      prev := prev[x := a];
      next := next[a := x];
    }

    /** ngx_queue_insert_tail */
    method InsertTail(h: Ptr, x: Ptr, ghost q: seq<Ptr>)
      requires Holds(h, q) && x != h && x !in q
      modifies this
      ensures Holds(h, q + [x])
    {
      hide Queue;
      QueueAt(next, prev, h, q, |q| - 1);
      InsertKeeps(next, prev, h, q, |q|, x);
      assert q[..|q|] + [x] + q[|q|..] == q + [x];
      ghost var n0, p0, a := next, prev, prev[h];
      prev := prev[x := prev[h]];
      next := next[prev[x] := x];
      next := next[x := h];
      prev := prev[h := x];
      assert next == n0[x := h][a := x] && prev == p0[h := x][x := a];
    }

    /** ngx_queue_split before the element x at index i. */
    method Split(h: Ptr, x: Ptr, n: Ptr, ghost q: seq<Ptr>, ghost i: nat)
      requires Holds(h, q) && i < |q| && x == q[i] && n != h && n !in q
      modifies this
      ensures Holds(h, q[..i]) && Holds(n, q[i..])
    {
      hide Queue;
      QueueAt(next, prev, h, q, |q| - 1);
      QueueAt(next, prev, h, q, i - 1);
      SplitKeeps(next, prev, h, q, i, n);
      prev := prev[n := prev[h]];
      next := next[prev[n] := n];
      next := next[n := x];
      prev := prev[h := prev[x]];
      next := next[prev[h] := h];
      prev := prev[x := n];
    }

    /** ngx_queue_add of a queue that is not empty. */
    method Add(h: Ptr, n: Ptr, ghost q: seq<Ptr>, ghost r: seq<Ptr>)
      requires Holds(h, q) && Holds(n, r) && r != []
      requires h != n && h !in r && n !in q && forall p :: p in q ==> p !in r
      modifies this
      ensures Holds(h, q + r)
    {
      hide Queue;
      QueueAt(next, prev, h, q, |q| - 1);
      QueueAt(next, prev, n, r, -1);
      QueueAt(next, prev, n, r, |r| - 1);
      AddKeeps(next, prev, h, q, n, r);
      assert At(h, q, |q| - 1) == h || At(h, q, |q| - 1) in q;
      NotItsSentinel(next, prev, n, r);
      ghost var n0, p0, last, end := next, prev, prev[h], prev[n];
      next := next[prev[h] := next[n]];
      prev := prev[next[n] := prev[h]];
      prev := prev[h := prev[n]];
      next := next[prev[h] := h];
      assert next == n0[last := r[0]][end := h] && prev == p0[r[0] := last][h := end];
    }

    /** ngx_queue_middle: element floor(n / 2) of n. */
    method Middle(h: Ptr, ghost q: seq<Ptr>) returns (middle: Ptr)
      requires Holds(h, q) && q != []
      ensures middle == q[|q| / 2]
    {
      hide Queue;
      NotItsSentinel(next, prev, h, q);
      QueueAt(next, prev, h, q, -1);
      QueueAt(next, prev, h, q, |q| - 1);
      middle := next[h];
      if middle == prev[h] {
        return;
      }
      var ahead := next[h];
      ghost var k: nat := 0;
      while true
        invariant 2 * k + 1 < |q| && middle == q[k] && ahead == q[2 * k]
        decreases |q| - k
      {
        QueueAt(next, prev, h, q, k);
        QueueAt(next, prev, h, q, 2 * k);
        middle := next[middle];
        ahead := next[ahead];
        if ahead == prev[h] {
          return;
        }
        QueueAt(next, prev, h, q, 2 * k + 1);
        ahead := next[ahead];
        if ahead == prev[h] {
          return;
        }
        k := k + 1;
      }
    }

    /** The search of ngx_queue_sort for the place of x among the sorted elements s, from the last on. */
    method FindSlot(x: Ptr, last: Ptr, h: Ptr, cmp: (Ptr, Ptr) -> int, ghost q: seq<Ptr>, ghost s: seq<Ptr>)
      returns (a: Ptr, ghost k: nat)
      requires Holds(h, q) && s != [] && s <= q && last == s[|s| - 1]
      ensures a == At(h, q, Slot(cmp, s, x) - 1) && k == Slot(cmp, s, x)
    {
      hide Queue, Slot;
      NotItsSentinel(next, prev, h, q);
      a, k := last, |s|;
      assert s[..k] == s;
      while true
        invariant 0 < k <= |s| && a == s[k - 1] && Slot(cmp, s[..k], x) == Slot(cmp, s, x)
        decreases k
        modifies {}
      {
        SlotStep(cmp, s, k, x);
        if cmp(a, x) <= 0 {
          return;
        }
        QueueAt(next, prev, h, q, k - 2);
        a := prev[a];
        k := k - 1;
        if a == h {
          SlotNone(cmp, s[..k], x);
          return;
        }
      }
    }

    /** One round of ngx_queue_sort: x, the element after the sorted ones, is put in its place. */
    method SortStep(h: Ptr, x: Ptr, cmp: (Ptr, Ptr) -> int, ghost s: seq<Ptr>, ghost rest: seq<Ptr>)
        returns (after: Ptr)
      requires Holds(h, s + [x] + rest) && s != []
      modifies this
      ensures Holds(h, Inserted(cmp, s, x) + rest) && after == At(h, rest, 0)
    {
      hide Queue, Slot;
      ghost var all, n := s + [x] + rest, |s|;
      QueueAt(next, prev, h, all, n - 1);
      QueueAt(next, prev, h, all, n);
      var before := prev[x];
      after := next[x];
      NotItsSentinel(next, prev, h, all);
      StepSeqs(cmp, s, x, rest);
      Remove(x, h, all, n);
      ghost var k;
      var a;
      a, k := FindSlot(x, before, h, cmp, s + rest, s);
      InsertAfter(a, x, h, s + rest, k);
    }

    /** ngx_queue_sort */
    method Sort(h: Ptr, cmp: (Ptr, Ptr) -> int, ghost q: seq<Ptr>)
      requires Holds(h, q)
      modifies this
      ensures Holds(h, SortedBy(cmp, q))
    {
      hide Queue, Inserted, SortedBy;
      NotItsSentinel(next, prev, h, q);
      QueueAt(next, prev, h, q, -1);
      QueueAt(next, prev, h, q, |q| - 1);
      var x := next[h];
      if x == prev[h] {
        OneSorted(cmp, q);
        return;
      }
      QueueAt(next, prev, h, q, 0);
      x := next[x];
      ghost var n: nat, s: seq<Ptr> := 1, q[..1];
      OneSorted(cmp, q[..1]);
      assert q[..1] + q[1..] == q;
      while x != h
        invariant 1 <= n <= |q| && s == SortedBy(cmp, q[..n]) && Holds(h, s + q[n..])
        invariant x == At(h, q, n)
        decreases |q| - n
      {
        Peel(s, q, n);
        AtRest(h, q, n);
        x := SortStep(h, x, cmp, s, q[n + 1..]);
        SortedByIs(cmp, q[..n + 1]);
        s := Inserted(cmp, s, q[n]);
        n := n + 1;
      }
      assert q[..n] == q && s + q[n..] == s;
    }
  }

  lemma Peel(s: seq<Ptr>, q: seq<Ptr>, n: nat)
    requires n < |q|
    ensures s + q[n..] == s + [q[n]] + q[n + 1..]
    ensures q[..n + 1][..n] == q[..n] && q[..n + 1][n] == q[n] && |q[..n + 1]| == n + 1
  {
  }

  lemma AtRest(h: Ptr, q: seq<Ptr>, n: nat)
    requires n < |q|
    ensures At(h, q, n) == q[n] && At(h, q[n + 1..], 0) == At(h, q, n + 1)
  {
  }

  lemma StepSeqs(cmp: (Ptr, Ptr) -> int, s: seq<Ptr>, x: Ptr, rest: seq<Ptr>)
    requires forall i, j :: 0 <= i < j < |s + [x] + rest| ==> (s + [x] + rest)[i] != (s + [x] + rest)[j]
    ensures var all, n, k := s + [x] + rest, |s|, Slot(cmp, s, x);
      && all[n] == x && all[..n] + all[n + 1..] == s + rest && x !in s + rest
      && (s + rest)[..k] + [x] + (s + rest)[k..] == Inserted(cmp, s, x) + rest
  {
    hide Slot;
    Splices(s, x, rest, Slot(cmp, s, x));
    var all, n := s + [x] + rest, |s|;
    forall i | 0 <= i < |s + rest| ensures (s + rest)[i] != x {
      assert (s + rest)[i] == all[if i < n then i else i + 1];
    }
  }

  lemma Splices(s: seq<Ptr>, x: Ptr, rest: seq<Ptr>, k: nat)
    requires k <= |s|
    ensures (s + [x] + rest)[..|s|] == s && (s + [x] + rest)[|s| + 1..] == rest && (s + [x] + rest)[|s|] == x
    ensures (s + rest)[..k] == s[..k] && (s + rest)[k..] == s[k..] + rest
    ensures s[..k] + [x] + (s[k..] + rest) == s[..k] + [x] + s[k..] + rest
  {
  }

  lemma OneSorted(cmp: (Ptr, Ptr) -> int, q: seq<Ptr>)
    requires |q| <= 1
    ensures SortedBy(cmp, q) == q
  {
    hide Slot;
    if q != [] {
      SlotNone(cmp, SortedBy(cmp, q[..0]), q[0]);
    }
  }
}
