/**
  The order in which ngx_resolver_report_srv of src/core/ngx_resolver.c reports the addresses of the
  targets of SRV records: by priority, and within a priority from a target picked at random by
  weight on (RFC 2782).
 */
module SrvReport {

  datatype Srv = Srv(priority: nat, weight: nat, addrs: seq<int>)

  /** An address of target `target`, with the fields that are copied to it. */
  datatype Entry = Entry(target: nat, addr: int, priority: nat, weight: nat)

  /** A SRV record as it stands in the response; its target's addresses are looked up later. */
  datatype Record = Record(priorityHi: nat, priorityLo: nat, weightHi: nat, weightLo: nat, addrs: seq<int>)

  // ---------- from the records to the targets ----------

  function ReadSrv(r: Record): Srv {
    var w := 256 * r.weightHi + r.weightLo;
    Srv(256 * r.priorityHi + r.priorityLo, if w == 0 then 1 else w, r.addrs)
  }

  /** Two bytes are a number, the high one first; a weight of zero is raised to one. */
  lemma ReadWritten(priority: nat, weight: nat, addrs: seq<int>)
    requires priority < 0x1_0000 && weight < 0x1_0000
    ensures var s := ReadSrv(Record(priority / 256, priority % 256, weight / 256, weight % 256, addrs));
      && s.priority == priority && s.addrs == addrs
      && (weight > 0 ==> s.weight == weight) && (weight == 0 ==> s.weight == 1)
  {
  }

  function ReadAll(rs: seq<Record>): (srvs: seq<Srv>)
    ensures |srvs| == |rs|
  {
    seq(|rs|, k requires 0 <= k < |rs| => ReadSrv(rs[k]))
  }

  /** Every target can be picked. */
  ghost predicate Weighty(srvs: seq<Srv>) {
    forall i :: 0 <= i < |srvs| ==> srvs[i].weight >= 1
  }

  /** By priority, lowest first. */
  ghost predicate Ordered(srvs: seq<Srv>) {
    forall i, j :: 0 <= i < j < |srvs| ==> srvs[i].priority <= srvs[j].priority
  }

  /** x goes behind the last that does not come after it. */
  function Insert(p: seq<Srv>, x: Srv): seq<Srv> {
    if p == [] || p[|p| - 1].priority <= x.priority then p + [x]
    else Insert(p[..|p| - 1], x) + [p[|p| - 1]]
  }

  function Sorted(s: seq<Srv>): seq<Srv> {
    if s == [] then [] else Insert(Sorted(s[..|s| - 1]), s[|s| - 1])
  }

  lemma {:induction false} InsertAt(p: seq<Srv>, x: Srv, j: nat)
    requires j <= |p| && (j > 0 ==> p[j - 1].priority <= x.priority)
    requires forall k :: j <= k < |p| ==> p[k].priority > x.priority
    ensures Insert(p, x) == p[..j] + [x] + p[j..]
  {
    if j < |p| {
      InsertAt(p[..|p| - 1], x, j);
    } else {
      assert p[..j] + [x] + p[j..] == p + [x];
    }
  }

  lemma {:induction false} InsertSame(p: seq<Srv>, x: Srv)
    ensures multiset(Insert(p, x)) == multiset(p) + multiset{x}
  {
    if p != [] {
      InsertSame(p[..|p| - 1], x);
      assert p == p[..|p| - 1] + [p[|p| - 1]];
    }
  }

  /** Sorting keeps the targets, */
  lemma {:induction false} SortedSame(s: seq<Srv>)
    ensures multiset(Sorted(s)) == multiset(s)
  {
    hide Insert;
    if s != [] {
      SortedSame(s[..|s| - 1]);
      InsertSame(Sorted(s[..|s| - 1]), s[|s| - 1]);
      assert s == s[..|s| - 1] + [s[|s| - 1]];
    }
  }

  lemma {:induction false} InsertBound(p: seq<Srv>, x: Srv, b: nat)
    requires x.priority <= b && forall k :: 0 <= k < |p| ==> p[k].priority <= b
    ensures forall k :: 0 <= k < |Insert(p, x)| ==> Insert(p, x)[k].priority <= b
  {
    if p != [] {
      InsertBound(p[..|p| - 1], x, b);
    }
  }

  lemma {:induction false} InsertOrdered(p: seq<Srv>, x: Srv)
    requires Ordered(p)
    ensures Ordered(Insert(p, x))
  {
    if p != [] {
      var k := |p| - 1;
      if p[k].priority > x.priority {
        InsertOrdered(p[..k], x);
        InsertBound(p[..k], x, p[k].priority);
      } else {
        assert Insert(p, x) == p + [x];
        forall i | 0 <= i < |p| ensures p[i].priority <= x.priority {
          assert i < k ==> p[i].priority <= p[k].priority;
        }
      }
    }
  }

  /** and puts them in order. */
  lemma {:induction false} SortedOrdered(s: seq<Srv>)
    ensures Ordered(Sorted(s))
  {
    hide Ordered;
    if s != [] {
      SortedOrdered(s[..|s| - 1]);
      InsertOrdered(Sorted(s[..|s| - 1]), s[|s| - 1]);
    } else {
      NoneOrdered();
    }
  }

  lemma NoneOrdered()
    ensures Ordered([])
  {
  }

  /** The inner loop of ngx_sort: shifts what comes after x, the element at n. */
  method InsertInto(a: array<Srv>, n: nat)
    requires n < a.Length
    modifies a
    ensures a[..n + 1] == Insert(old(a[..n]), old(a[n])) && a[n + 1..] == old(a[n + 1..])
  {
    hide Insert;
    var x, j := a[n], n;
    ghost var p := a[..n];
    while j > 0 && a[j - 1].priority > x.priority
      invariant j <= n && a[..j] == p[..j] && a[n + 1..] == old(a[n + 1..])
      invariant forall k :: j < k <= n ==> a[k] == p[k - 1]
      invariant forall k :: j <= k < n ==> p[k].priority > x.priority
    {
      assert a[j - 1] == a[..j][j - 1] == p[j - 1];
      a[j] := a[j - 1];
      j := j - 1;
      assert a[..j] == a[..j + 1][..j];
    }
    assert j > 0 ==> a[j - 1] == a[..j][j - 1] == p[j - 1];
    a[j] := x;
    InsertAt(p, x, j);
    assert a[..n + 1] == p[..j] + [x] + p[j..];
  }

  /** ngx_sort, which does nothing if it gets no memory for one element. */
  method Sort(a: array<Srv>, allocOk: bool)
    modifies a
    ensures a[..] == if allocOk then Sorted(old(a[..])) else old(a[..])
  {
    hide Insert;
    if !allocOk {
      return;
    }
    ghost var s := a[..];
    var n := 0;
    while n < a.Length
      invariant n <= a.Length && a[..n] == Sorted(s[..n]) && a[n..] == s[n..]
    {
      assert s[..n + 1][..n] == s[..n] && a[n] == a[n..][0] == s[n];
      InsertInto(a, n);
      n := n + 1;
    }
    assert a[..n] == a[..] && s[..n] == s;
  }

  /**
    How a response's records become targets.  All of them can be picked; without memory to sort
    them they stay in the order of the response.
   */
  method ReadSrvs(rs: seq<Record>, allocOk: bool) returns (srvs: seq<Srv>)
    ensures Weighty(srvs) && multiset(srvs) == multiset(ReadAll(rs))
    ensures Ordered(srvs) <==> allocOk || Ordered(ReadAll(rs))
    ensures !allocOk ==> srvs == ReadAll(rs)
  {
    hide Ordered, Sorted;
    var a := new Srv[|rs|](_ => Srv(0, 0, []));
    for j := 0 to |rs|
      invariant a[..j] == ReadAll(rs)[..j]
    {
      var priority := 256 * rs[j].priorityHi + rs[j].priorityLo;
      var weight := 256 * rs[j].weightHi + rs[j].weightLo;
      if weight == 0 {
        weight := 1;
      }
      a[j] := Srv(priority, weight, rs[j].addrs);
    }
    assert a[..] == ReadAll(rs);
    Sort(a, allocOk);
    SortedSame(ReadAll(rs));
    SortedOrdered(ReadAll(rs));
    srvs := a[..];
    ReadWeighty(rs, srvs);
  }

  lemma ReadWeighty(rs: seq<Record>, srvs: seq<Srv>)
    requires multiset(srvs) == multiset(ReadAll(rs))
    ensures Weighty(srvs)
  {
    forall i | 0 <= i < |srvs| ensures srvs[i].weight >= 1 {
      assert srvs[i] in multiset(ReadAll(rs));
    }
  }

  // ---------- what is reported ----------

  function EntryOf(srvs: seq<Srv>, k: nat, m: nat): Entry
    requires k < |srvs| && m < |srvs[k].addrs|
  {
    Entry(k, srvs[k].addrs[m], srvs[k].priority, srvs[k].weight)
  }

  /** All addresses of target k. */
  function Of(srvs: seq<Srv>, k: nat): (r: seq<Entry>)
    requires k < |srvs|
    ensures |r| == |srvs[k].addrs|
  {
    seq(|srvs[k].addrs|, m requires 0 <= m < |srvs[k].addrs| => EntryOf(srvs, k, m))
  }

  /** All addresses of the targets from a up to b. */
  function All(srvs: seq<Srv>, a: nat, b: nat): seq<Entry>
    requires a <= b <= |srvs|
    decreases b - a
  {
    if a == b then [] else All(srvs, a, b - 1) + Of(srvs, b - 1)
  }

  lemma {:induction false} AllJoin(srvs: seq<Srv>, a: nat, b: nat, c: nat)
    requires a <= b <= c <= |srvs|
    ensures All(srvs, a, c) == All(srvs, a, b) + All(srvs, b, c)
    decreases c - b
  {
    hide Of;
    if b < c {
      AllJoin(srvs, a, b, c - 1);
    } else {
      assert All(srvs, a, b) + [] == All(srvs, a, b);
    }
  }

  /** The random numbers that pick target k. */
  function Share(srvs: seq<Srv>, k: nat): nat
    requires k < |srvs|
  {
    |srvs[k].addrs| * srvs[k].weight
  }

  function Shares(srvs: seq<Srv>, a: nat, b: nat): nat
    requires a <= b <= |srvs|
    decreases b - a
  {
    if a == b then 0 else Shares(srvs, a, b - 1) + Share(srvs, b - 1)
  }

  lemma {:induction false} SharesGrow(srvs: seq<Srv>, a: nat, b: nat, c: nat)
    requires a <= b <= c <= |srvs|
    ensures Shares(srvs, a, b) <= Shares(srvs, a, c)
    decreases c - b
  {
    if b < c {
      SharesGrow(srvs, a, b, c - 1);
    }
  }

  /** Without shares there are no addresses. */
  lemma {:induction false} NoShares(srvs: seq<Srv>, a: nat, b: nat)
    requires Weighty(srvs) && a <= b <= |srvs| && Shares(srvs, a, b) == 0
    ensures All(srvs, a, b) == []
    decreases b - a
  {
    if a < b {
      NoShares(srvs, a, b - 1);
      if |srvs[b - 1].addrs| > 0 {
        ProductPositive(|srvs[b - 1].addrs|, srvs[b - 1].weight);
      }
    }
  }

  lemma ProductPositive(x: nat, y: nat)
    requires x > 0 && y > 0
    ensures x * y > 0
  {
  }

  /** The end of the group of one priority that starts at i. */
  ghost predicate IsGroup(srvs: seq<Srv>, i: nat, j: nat) {
    && i < j <= |srvs|
    && (forall k :: i <= k < j ==> srvs[k].priority == srvs[i].priority)
    && (j < |srvs| ==> srvs[j].priority != srvs[i].priority)
  }

  /** The first loop: the group and its random numbers. */
  method Group(srvs: seq<Srv>, i: nat) returns (j: nat, nw: nat)
    requires i < |srvs|
    ensures IsGroup(srvs, i, j) && nw == Shares(srvs, i, j)
  {
    nw, j := 0, i;
    while j < |srvs|
      invariant i <= j <= |srvs| && nw == Shares(srvs, i, j)
      invariant forall k :: i <= k < j ==> srvs[k].priority == srvs[i].priority
    {
      if srvs[j].priority != srvs[i].priority {
        break;
      }
      nw := nw + |srvs[j].addrs| * srvs[j].weight;
      j := j + 1;
    }
  }

  /** The second loop: of the nw numbers, exactly those of its share pick a target. */
  method Pick(srvs: seq<Srv>, i: nat, j: nat, w0: nat) returns (k: nat)
    requires i <= j <= |srvs| && w0 < Shares(srvs, i, j)
    ensures i <= k < j && Shares(srvs, i, k) <= w0 < Shares(srvs, i, k + 1)
  {
    k := i;
    var w := w0;
    while k < j
      invariant i <= k <= j && w >= 0 && w0 == Shares(srvs, i, k) + w
    {
      if w < |srvs[k].addrs| * srvs[k].weight {
        break;
      }
      w := w - |srvs[k].addrs| * srvs[k].weight;
      k := k + 1;
    }
  }

  /** A target is picked by naddrs * weight numbers in a row, which no other target has. */
  lemma PickIsFair(srvs: seq<Srv>, i: nat, j: nat, k: nat, k': nat, w: nat)
    requires i <= k < j <= |srvs| && i <= k' < j
    requires Shares(srvs, i, k') <= w < Shares(srvs, i, k' + 1)
    ensures k' == k <==> Shares(srvs, i, k) <= w < Shares(srvs, i, k) + |srvs[k].addrs| * srvs[k].weight
    ensures Shares(srvs, i, k) + |srvs[k].addrs| * srvs[k].weight <= Shares(srvs, i, j)
  {
    SharesGrow(srvs, i, k + 1, j);
    if k < k' {
      SharesGrow(srvs, i, k + 1, k');
    } else if k' < k {
      SharesGrow(srvs, i, k' + 1, k);
    }
  }

  /** A group is reported from target k on, and then from its first target. */
  function Turned(srvs: seq<Srv>, i: nat, k: nat, j: nat): seq<Entry>
    requires i <= k <= j <= |srvs|
  {
    All(srvs, k, j) + All(srvs, i, k)
  }

  /** The random number of the group falls into the share of target k. */
  ghost predicate Picks(srvs: seq<Srv>, random: nat -> nat, i: nat, k: nat, n: nat)
    requires i <= k < n <= |srvs| && Shares(srvs, i, n) > 0
  {
    Shares(srvs, i, k) <= random(i) % Shares(srvs, i, n) < Shares(srvs, i, k + 1)
  }

  /** out ends with the report of the group from i to n, from the target k on that random(i) picks. */
  ghost predicate EndsWithGroup(
      srvs: seq<Srv>, random: nat -> nat, i: nat, k: nat, n: nat, out: seq<Entry>) {
    && i <= k < n <= |srvs|
    && (forall m :: i <= m < n ==> srvs[m].priority == srvs[i].priority)
    && (i > 0 ==> srvs[i - 1].priority != srvs[i].priority)
    && (Shares(srvs, i, n) > 0 ==> Picks(srvs, random, i, k, n))
    && |Turned(srvs, i, k, n)| <= |out|
    && out[|out| - |Turned(srvs, i, k, n)|..] == Turned(srvs, i, k, n)
  }

  /** out reports the first n targets, group by group. */
  ghost predicate Reported(srvs: seq<Srv>, random: nat -> nat, n: nat, out: seq<Entry>)
    requires n <= |srvs|
  {
    if n == 0 then out == []
    else exists i: nat, k: nat ::
      && EndsWithGroup(srvs, random, i, k, n, out)
      && Reported(srvs, random, i, out[..|out| - |Turned(srvs, i, k, n)|])
  }

  /** Every address of every target is reported exactly once. */
  lemma {:induction false} ReportedOnce(srvs: seq<Srv>, random: nat -> nat, n: nat, out: seq<Entry>)
    requires n <= |srvs| && Reported(srvs, random, n, out)
    ensures multiset(out) == multiset(All(srvs, 0, n))
  {
    hide All, Turned;
    if n == 0 {
      AllNone(srvs);
    } else {
      var i: nat, k: nat :| EndsWithGroup(srvs, random, i, k, n, out)
        && Reported(srvs, random, i, out[..|out| - |Turned(srvs, i, k, n)|]);
      var prev := out[..|out| - |Turned(srvs, i, k, n)|];
      ReportedOnce(srvs, random, i, prev);
      assert out == prev + Turned(srvs, i, k, n);
      TurnedOnce(srvs, i, k, n);
      AllJoin(srvs, 0, i, n);
    }
  }

  /** The addresses that out has for target k, in the order of out. */
  function AddrsAt(out: seq<Entry>, k: nat): seq<int> {
    if out == [] then []
    else AddrsAt(out[..|out| - 1], k) + if out[|out| - 1].target == k then [out[|out| - 1].addr] else []
  }

  lemma {:induction false} AddrsAtJoin(a: seq<Entry>, b: seq<Entry>, k: nat)
    ensures AddrsAt(a + b, k) == AddrsAt(a, k) + AddrsAt(b, k)
  {
    if b == [] {
      assert a + b == a;
    } else {
      var n := |b| - 1;
      assert (a + b)[..|a| + n] == a + b[..n];
      AddrsAtJoin(a, b[..n], k);
    }
  }

  lemma {:induction false} AddrsOfTarget(srvs: seq<Srv>, j: nat, k: nat, n: nat)
    requires j < |srvs| && n <= |srvs[j].addrs|
    ensures AddrsAt(Of(srvs, j)[..n], k) == if j == k then srvs[j].addrs[..n] else []
  {
    if n > 0 {
      AddrsOfTarget(srvs, j, k, n - 1);
      assert Of(srvs, j)[..n][..n - 1] == Of(srvs, j)[..n - 1];
      assert srvs[j].addrs[..n] == srvs[j].addrs[..n - 1] + [srvs[j].addrs[n - 1]];
    }
  }

  lemma {:induction false} AddrsOfAll(srvs: seq<Srv>, a: nat, b: nat, k: nat)
    requires a <= b <= |srvs| && k < |srvs|
    ensures AddrsAt(All(srvs, a, b), k) == if a <= k < b then srvs[k].addrs else []
    decreases b - a
  {
    hide Of;
    if a < b {
      AddrsOfAll(srvs, a, b - 1, k);
      AddrsAtJoin(All(srvs, a, b - 1), Of(srvs, b - 1), k);
      AddrsOfTarget(srvs, b - 1, k, |srvs[b - 1].addrs|);
      assert Of(srvs, b - 1)[..|srvs[b - 1].addrs|] == Of(srvs, b - 1);
    }
  }

  /** Of every target exactly its addresses are reported, each once and in its own order. */
  lemma {:induction false} ReportedAddrs(srvs: seq<Srv>, random: nat -> nat, n: nat, out: seq<Entry>, k: nat)
    requires n <= |srvs| && k < |srvs| && Reported(srvs, random, n, out)
    ensures AddrsAt(out, k) == if k < n then srvs[k].addrs else []
  {
    hide All, AddrsAt;
    if n == 0 {
      NoAddrs(k);
    } else {
      var i: nat, j: nat :| EndsWithGroup(srvs, random, i, j, n, out)
        && Reported(srvs, random, i, out[..|out| - |Turned(srvs, i, j, n)|]);
      var prev := out[..|out| - |Turned(srvs, i, j, n)|];
      ReportedAddrs(srvs, random, i, prev, k);
      assert out == prev + Turned(srvs, i, j, n);
      AddrsAtJoin(prev, Turned(srvs, i, j, n), k);
      AddrsAtJoin(All(srvs, j, n), All(srvs, i, j), k);
      AddrsOfAll(srvs, j, n, k);
      AddrsOfAll(srvs, i, j, k);
    }
  }

  lemma NoAddrs(k: nat)
    ensures AddrsAt([], k) == []
  {
  }

  /** The entry is one of target e.target. */
  ghost predicate Describes(e: Entry, srvs: seq<Srv>) {
    e.target < |srvs| && e.priority == srvs[e.target].priority && e.weight == srvs[e.target].weight
  }

  lemma {:induction false} AllDescribe(srvs: seq<Srv>, a: nat, b: nat)
    requires a <= b <= |srvs|
    ensures forall e :: e in All(srvs, a, b) ==> Describes(e, srvs)
    decreases b - a
  {
    if a < b {
      AllDescribe(srvs, a, b - 1);
    }
  }

  function AddrCount(srvs: seq<Srv>): nat {
    if srvs == [] then 0 else AddrCount(srvs[..|srvs| - 1]) + |srvs[|srvs| - 1].addrs|
  }

  lemma {:induction false} AllCount(srvs: seq<Srv>, n: nat)
    requires n <= |srvs|
    ensures |All(srvs, 0, n)| == AddrCount(srvs[..n])
  {
    hide Of;
    if n > 0 {
      AllCount(srvs, n - 1);
      assert srvs[..n][..n - 1] == srvs[..n - 1];
    }
  }

  /** Every entry has its target's priority and weight, and there are as many as addresses. */
  lemma ReportedFields(srvs: seq<Srv>, random: nat -> nat, out: seq<Entry>)
    requires Reported(srvs, random, |srvs|, out)
    ensures forall e :: e in out ==> Describes(e, srvs)
    ensures |out| == AddrCount(srvs)
  {
    hide Reported, All, Describes;
    var n := |srvs|;
    ReportedOnce(srvs, random, n, out);
    AllDescribe(srvs, 0, n);
    AllCount(srvs, n);
    assert srvs[..n] == srvs;
    assert |out| == |multiset(out)| == |multiset(All(srvs, 0, n))|;
    forall e | e in out ensures Describes(e, srvs) {
      assert e in multiset(out);
      assert e in All(srvs, 0, n);
    }
  }

  lemma TurnedOnce(srvs: seq<Srv>, i: nat, k: nat, j: nat)
    requires i <= k <= j <= |srvs|
    ensures multiset(Turned(srvs, i, k, j)) == multiset(All(srvs, i, j))
  {
    hide All;
    AllJoin(srvs, i, k, j);
  }

  lemma AllNone(srvs: seq<Srv>)
    ensures All(srvs, 0, 0) == []
  {
  }

  lemma {:induction false} AllPriority(srvs: seq<Srv>, a: nat, b: nat, x: int)
    requires a <= b <= |srvs| && 0 <= x < |All(srvs, a, b)|
    ensures exists k :: a <= k < b && All(srvs, a, b)[x].priority == srvs[k].priority
    decreases b - a
  {
    var before := All(srvs, a, b - 1);
    if x < |before| {
      AllPriority(srvs, a, b - 1, x);
    } else {
      assert All(srvs, a, b)[x] == Of(srvs, b - 1)[x - |before|];
    }
  }

  lemma TurnedPriority(
      srvs: seq<Srv>, random: nat -> nat, i: nat, k: nat, n: nat, out: seq<Entry>, x: int)
    requires EndsWithGroup(srvs, random, i, k, n, out) && |out| - |Turned(srvs, i, k, n)| <= x < |out|
    ensures out[x].priority == srvs[i].priority
  {
    hide All, Of;
    var y := x - (|out| - |Turned(srvs, i, k, n)|);
    assert out[x] == Turned(srvs, i, k, n)[y];
    if y < |All(srvs, k, n)| {
      AllPriority(srvs, k, n, y);
    } else {
      AllPriority(srvs, i, k, y - |All(srvs, k, n)|);
    }
  }

  /** And the priorities never go down. */
  lemma {:induction false} ReportedInOrder(srvs: seq<Srv>, random: nat -> nat, n: nat, out: seq<Entry>, x: int, y: int)
    requires n <= |srvs| && Ordered(srvs) && Reported(srvs, random, n, out) && 0 <= x <= y < |out|
    ensures out[x].priority <= out[y].priority
    ensures n > 0 && out[y].priority <= srvs[n - 1].priority
  {
    hide All, Turned;
    var i: nat, k: nat :| EndsWithGroup(srvs, random, i, k, n, out)
      && Reported(srvs, random, i, out[..|out| - |Turned(srvs, i, k, n)|]);
    var prev := out[..|out| - |Turned(srvs, i, k, n)|];
    if y < |prev| {
      ReportedInOrder(srvs, random, i, prev, x, y);
    } else {
      TurnedPriority(srvs, random, i, k, n, out, y);
      if x < |prev| {
        ReportedInOrder(srvs, random, i, prev, x, x);
      } else {
        TurnedPriority(srvs, random, i, k, n, out, x);
      }
    }
  }

  /** Records that could not be sorted: the address of priority 2 is reported before that of priority 1. */
  lemma UnsortedReport(random: nat -> nat, out: seq<Entry>)
    requires var rs := [Record(0, 2, 0, 0, [7]), Record(0, 1, 0, 5, [8])]; Reported(ReadAll(rs), random, 2, out)
    ensures out == [Entry(0, 7, 2, 1), Entry(1, 8, 1, 5)]
  {
    hide Reported, EndsWithGroup;
    var srvs := ReadAll([Record(0, 2, 0, 0, [7]), Record(0, 1, 0, 5, [8])]);
    assert srvs[0] == Srv(2, 1, [7]) && srvs[1] == Srv(1, 5, [8]);
    assert Of(srvs, 0) == [Entry(0, 7, 2, 1)] && Of(srvs, 1) == [Entry(1, 8, 1, 5)];
    OneTarget(srvs, random, 1, out);
    var first := out[..|out| - 1];
    OneTarget(srvs, random, 0, first);
    OnlyNothing(srvs, random, first[..|first| - 1]);
  }

  lemma OnlyNothing(srvs: seq<Srv>, random: nat -> nat, out: seq<Entry>)
    requires Reported(srvs, random, 0, out)
    ensures out == []
  {
  }

  /** A group of one target ends the report with the target's addresses. */
  lemma OneTarget(srvs: seq<Srv>, random: nat -> nat, i: nat, out: seq<Entry>)
    requires i < |srvs| && (i > 0 ==> srvs[i - 1].priority != srvs[i].priority)
    requires Reported(srvs, random, i + 1, out)
    ensures var n := |out| - |Of(srvs, i)|;
      n >= 0 && out == out[..n] + Of(srvs, i) && Reported(srvs, random, i, out[..n])
  {
    hide Of;
    var a: nat, k: nat :| EndsWithGroup(srvs, random, a, k, i + 1, out)
      && Reported(srvs, random, a, out[..|out| - |Turned(srvs, a, k, i + 1)|]);
    assert srvs[i].priority == srvs[a].priority;
    assert a == i == k;
    assert All(srvs, i, i + 1) == All(srvs, i, i) + Of(srvs, i) == Of(srvs, i);
    assert Turned(srvs, i, i, i + 1) == Of(srvs, i);
  }

  /** Targets of one priority are reported from the one that the random number picks. */
  lemma PickedFirst(srvs: seq<Srv>, random: nat -> nat, k: nat, out: seq<Entry>)
    requires k < |srvs| && Reported(srvs, random, |srvs|, out)
    requires forall m :: 0 <= m < |srvs| ==> srvs[m].priority == srvs[0].priority
    requires Shares(srvs, 0, |srvs|) > 0 && Picks(srvs, random, 0, k, |srvs|)
    ensures out == Turned(srvs, 0, k, |srvs|)
  {
    hide Turned, Shares;
    var n := |srvs|;
    var i: nat, k': nat :| EndsWithGroup(srvs, random, i, k', n, out)
      && Reported(srvs, random, i, out[..|out| - |Turned(srvs, i, k', n)|]);
    assert i == 0;
    SharesGrow(srvs, 0, k, n);
    if k < k' {
      SharesGrow(srvs, 0, k + 1, k');
    } else if k' < k {
      SharesGrow(srvs, 0, k' + 1, k);
    }
  }

  /** The inner loops: the addresses of one target. */
  method AddTarget(srvs: seq<Srv>, k: nat, addrs: array<Entry>, n: nat) returns (n': nat)
    requires k < |srvs| && n + |srvs[k].addrs| <= addrs.Length
    modifies addrs
    ensures n' == n + |srvs[k].addrs| && addrs[..n'] == old(addrs[..n]) + Of(srvs, k)
  {
    n' := n;
    for m := 0 to |srvs[k].addrs|
      invariant n' == n + m && addrs[..n'] == old(addrs[..n]) + Of(srvs, k)[..m]
    {
      addrs[n'] := Entry(k, srvs[k].addrs[m], srvs[k].priority, srvs[k].weight);
      n' := n' + 1;
    }
  }

  /** After l - i targets of the group the loop is at target k and has reported out. */
  ghost predicate Round(srvs: seq<Srv>, i: nat, k0: nat, j: nat, l: nat, k: nat, out: seq<Entry>) {
    && i <= k0 < j <= |srvs| && i <= l <= j && i <= k < j
    && (l == j ==> k == k0)
    && if l - i < j - k0 then k == k0 + (l - i) && out == All(srvs, k0, k)
       else k == i + (l - i) - (j - k0) && out == All(srvs, k0, j) + All(srvs, i, k)
  }

  lemma RoundStarts(srvs: seq<Srv>, i: nat, k0: nat, j: nat)
    requires i <= k0 < j <= |srvs|
    ensures Round(srvs, i, k0, j, i, k0, [])
  {
  }

  lemma RoundGoesOn(srvs: seq<Srv>, i: nat, k0: nat, j: nat, l: nat, k: nat, out: seq<Entry>)
    requires Round(srvs, i, k0, j, l, k, out) && l < j
    ensures k < |srvs| && |out| + |Of(srvs, k)| <= |All(srvs, i, j)|
    ensures Round(srvs, i, k0, j, l + 1, if k + 1 == j then i else k + 1, out + Of(srvs, k))
  {
    hide All, Of;
    TargetFits(srvs, i, k0, j, k);
    AllEmpty(srvs, i);
    if k0 <= k {
      assert out + Of(srvs, k) == All(srvs, k0, k + 1);
      assert All(srvs, k0, j) + [] == All(srvs, k0, j);
    } else {
      assert out + Of(srvs, k) == All(srvs, k0, j) + (All(srvs, i, k) + Of(srvs, k));
    }
  }

  lemma AllEmpty(srvs: seq<Srv>, a: nat)
    requires a <= |srvs|
    ensures All(srvs, a, a) == []
  {
  }

  lemma RoundEnds(srvs: seq<Srv>, i: nat, k0: nat, j: nat, k: nat, out: seq<Entry>)
    requires Round(srvs, i, k0, j, j, k, out)
    ensures out == Turned(srvs, i, k0, j) && |out| == |All(srvs, i, j)|
  {
    hide All;
    AllJoin(srvs, i, k0, j);
    AllEmpty(srvs, i);
  }

  /** The loop over a group, from target k on, round its end. */
  method AddGroup(srvs: seq<Srv>, i: nat, k0: nat, j: nat, addrs: array<Entry>, n0: nat) returns (n: nat)
    requires i <= k0 < j <= |srvs| && n0 + |All(srvs, i, j)| <= addrs.Length
    modifies addrs
    ensures n == n0 + |All(srvs, i, j)| && addrs[..n] == old(addrs[..n0]) + Turned(srvs, i, k0, j)
  {
    hide Of, All, Turned, Round;
    n := n0;
    var k := k0;
    ghost var out: seq<Entry> := [];
    RoundStarts(srvs, i, k0, j);
    for l := i to j
      invariant n == n0 + |out| <= addrs.Length && addrs[..n] == old(addrs[..n0]) + out
      invariant Round(srvs, i, k0, j, l, k, out)
    {
      RoundGoesOn(srvs, i, k0, j, l, k, out);
      n := AddTarget(srvs, k, addrs, n);
      out := out + Of(srvs, k);
      k := k + 1;
      if k == j {
        k := i;
      }
    }
    RoundEnds(srvs, i, k0, j, k, out);
  }

  lemma TargetFits(srvs: seq<Srv>, i: nat, k0: nat, j: nat, k: nat)
    requires i <= k0 < j <= |srvs| && i <= k < j
    ensures All(srvs, i, k + 1) == All(srvs, i, k) + Of(srvs, k)
    ensures k0 <= k ==> All(srvs, k0, k + 1) == All(srvs, k0, k) + Of(srvs, k)
    ensures k0 <= k ==> |All(srvs, k0, k + 1)| <= |All(srvs, i, j)|
    ensures k < k0 ==> |All(srvs, k0, j)| + |All(srvs, i, k + 1)| <= |All(srvs, i, j)|
  {
    if k0 <= k {
      AllJoin(srvs, i, k + 1, j);
      AllJoin(srvs, i, k0, k + 1);
    } else {
      AllJoin(srvs, i, k0, j);
      AllJoin(srvs, i, k + 1, k0);
    }
  }

  /** The sum of the numbers of addresses. */
  method CountAddrs(srvs: seq<Srv>) returns (naddrs: nat)
    ensures naddrs == |All(srvs, 0, |srvs|)|
  {
    naddrs := 0;
    for i := 0 to |srvs|
      invariant naddrs == |All(srvs, 0, i)|
    {
      naddrs := naddrs + |srvs[i].addrs|;
    }
  }

  datatype Outcome = Found(addrs: seq<Entry>) | NxDomain | NoMemory

  /** ngx_resolver_report_srv; random(i) is the random number drawn for the group that starts at i. */
  method ReportSrv(srvs: seq<Srv>, random: nat -> nat, allocOk: bool) returns (r: Outcome)
    requires Weighty(srvs)
    ensures r == NxDomain <==> All(srvs, 0, |srvs|) == []
    ensures r == NoMemory <==> !allocOk && All(srvs, 0, |srvs|) != []
    ensures r.Found? ==> Reported(srvs, random, |srvs|, r.addrs)
  {
    hide Weighty, Reported, EndsWithGroup, Picks, IsGroup, Turned, All, Shares;
    var naddrs := CountAddrs(srvs);
    if naddrs == 0 {
      return NxDomain;
    }
    if !allocOk {
      return NoMemory;
    }
    var addrs := new Entry[naddrs](_ => Entry(0, 0, 0, 0));
    var i, n := 0, 0;
    NoneReported(srvs, random);
    while i < |srvs|
      invariant i <= |srvs| && n <= naddrs && n == |All(srvs, 0, i)| && StartsGroup(srvs, i)
      invariant Reported(srvs, random, i, addrs[..n])
    {
      var j, nw := Group(srvs, i);
      GroupEnd(srvs, i, j);
      AllJoin(srvs, 0, i, j);
      AllJoin(srvs, 0, j, |srvs|);
      if nw == 0 {
        NoShares(srvs, i, j);
        SkippedGroup(srvs, random, i, j, addrs[..n]);
      } else {
        var w := random(i) % nw;
        var k := Pick(srvs, i, j, w);
        ghost var before := addrs[..n];
        PickedBy(srvs, random, i, k, j);
        n := AddGroup(srvs, i, k, j, addrs, n);
        NextGroup(srvs, random, i, k, j, before, addrs[..n]);
      }
      i := j;
    }
    assert addrs[..] == addrs[..n];
    return Found(addrs[..]);
  }

  ghost predicate StartsGroup(srvs: seq<Srv>, i: nat) {
    0 < i < |srvs| ==> srvs[i - 1].priority != srvs[i].priority
  }

  lemma NoneReported(srvs: seq<Srv>, random: nat -> nat)
    ensures Reported(srvs, random, 0, []) && All(srvs, 0, 0) == []
  {
  }

  lemma GroupEnd(srvs: seq<Srv>, i: nat, j: nat)
    requires IsGroup(srvs, i, j)
    ensures i < j <= |srvs| && StartsGroup(srvs, j)
  {
  }

  lemma PickedBy(srvs: seq<Srv>, random: nat -> nat, i: nat, k: nat, j: nat)
    requires i <= k < j <= |srvs| && Shares(srvs, i, j) > 0
    requires Shares(srvs, i, k) <= random(i) % Shares(srvs, i, j) < Shares(srvs, i, k + 1)
    ensures Picks(srvs, random, i, k, j)
  {
  }

  lemma NextGroup(
      srvs: seq<Srv>, random: nat -> nat, i: nat, k: nat, j: nat, before: seq<Entry>, out: seq<Entry>)
    requires IsGroup(srvs, i, j) && StartsGroup(srvs, i) && i <= k < j && Reported(srvs, random, i, before)
    requires Shares(srvs, i, j) > 0 ==> Picks(srvs, random, i, k, j)
    requires out == before + Turned(srvs, i, k, j)
    ensures Reported(srvs, random, j, out)
  {
    hide Turned;
    assert out[..|out| - |Turned(srvs, i, k, j)|] == before;
    assert EndsWithGroup(srvs, random, i, k, j, out);
  }

  lemma SkippedGroup(
      srvs: seq<Srv>, random: nat -> nat, i: nat, j: nat, out: seq<Entry>)
    requires IsGroup(srvs, i, j) && StartsGroup(srvs, i) && Reported(srvs, random, i, out)
    requires All(srvs, i, j) == [] && Shares(srvs, i, j) == 0
    ensures Reported(srvs, random, j, out)
  {
    AllJoin(srvs, i, i, j);
    assert out == out + Turned(srvs, i, i, j);
    NextGroup(srvs, random, i, i, j, out, out);
  }
}
