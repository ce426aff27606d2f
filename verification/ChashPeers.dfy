/**
  ngx_stream_upstream_get_chash_peer of src/stream/ngx_stream_upstream_hash_module.c: the smooth
  weighted choice among the eligible peers of a ring point's server, and the walk along the ring
  when there is none.
 */
module ChashPeers {
  import opened ConsistentHash
  import opened Wrappers

  datatype Rc = OK | BUSY

  /** ngx_stream_upstream_rr_peer_t */
  datatype Peer = Peer(
    server: Server, down: bool, maxFails: nat, fails: nat, checked: int, failTimeout: int,
    weight: int, effective: int, current: int, conns: nat)

  /** A peer of this server that this request has not tried, and that has not failed too often lately. */
  predicate Eligible(p: Peer, tried: bool, server: Server, now: int) {
    && !tried && !p.down && p.server == server
    && !(p.maxFails > 0 && p.fails >= p.maxFails && now - p.checked <= p.failTimeout)
  }

  /** The peer has failed as often as it may, and its time out has not passed. */
  predicate Resting(p: Peer, now: int) {
    p.maxFails > 0 && p.fails >= p.maxFails && now <= p.checked + p.failTimeout
  }

  /** A peer of a server is passed over exactly if it was tried before, is down or rests. */
  lemma PassedOver(p: Peer, tried: bool, server: Server, now: int)
    requires p.server == server
    ensures !Eligible(p, tried, server, now) <==> tried || p.down || Resting(p, now)
  {
  }

  ghost predicate AllPassed(ps: seq<Peer>, tried: set<nat>, server: Server, now: int) {
    forall i :: 0 <= i < |ps| && ps[i].server == server ==> i in tried || ps[i].down || Resting(ps[i], now)
  }

  lemma NonePassed(ps: seq<Peer>, tried: set<nat>, server: Server, now: int)
    requires forall i :: 0 <= i < |ps| ==> !Flags(ps, tried, server, now)[i]
    ensures AllPassed(ps, tried, server, now)
  {
    forall i | 0 <= i < |ps| && ps[i].server == server ensures i in tried || ps[i].down || Resting(ps[i], now) {
      assert !Flags(ps, tried, server, now)[i];
    }
  }

  /** Which peers are eligible. */
  function Flags(ps: seq<Peer>, tried: set<nat>, server: Server, now: int): (el: seq<bool>)
    ensures |el| == |ps| && forall i :: 0 <= i < |ps| ==> el[i] == Eligible(ps[i], i in tried, server, now)
  {
    seq(|ps|, i requires 0 <= i < |ps| => Eligible(ps[i], i in tried, server, now))
  }

  // ---------- one choice ----------

  function RaisedPeer(p: Peer): Peer {
    p.(current := p.current + p.effective,
       effective := if p.effective < p.weight then p.effective + 1 else p.effective)
  }

  /** A peer gains what it is worth now, and is worth one more from now on, up to its weight. */
  lemma Recovers(p: Peer)
    requires p.effective <= p.weight
    ensures var r := RaisedPeer(p);
      r == p.(current := r.current, effective := r.effective) && r.current - p.current == p.effective
      && p.effective <= r.effective <= p.weight && (r.effective == p.effective + 1 || r.effective == p.weight)
  {
  }

  /** The eligible peers have gained their weight. */
  function Raised(ps: seq<Peer>, el: seq<bool>): (r: seq<Peer>)
    requires |el| == |ps|
    ensures |r| == |ps| && forall i :: 0 <= i < |ps| ==> r[i] == if el[i] then RaisedPeer(ps[i]) else ps[i]
  {
    seq(|ps|, i requires 0 <= i < |ps| => if el[i] then RaisedPeer(ps[i]) else ps[i])
  }

  /** The weight that the eligible ones of the first n peers have gained together. */
  function Total(ps: seq<Peer>, el: seq<bool>, n: nat): int
    requires n <= |el| == |ps|
  {
    if n == 0 then 0 else Total(ps, el, n - 1) + if el[n - 1] then ps[n - 1].effective else 0
  }

  /** b is the first of the eligible ones among the first n peers with the most weight. */
  ghost predicate IsBest(ps: seq<Peer>, el: seq<bool>, n: nat, b: nat)
    requires n <= |el| == |ps|
  {
    && b < n && el[b]
    && (forall i :: 0 <= i < b && el[i] ==> ps[i].current < ps[b].current)
    && (forall i :: b <= i < n && el[i] ==> ps[i].current <= ps[b].current)
  }

  lemma BestIsUnique(ps: seq<Peer>, el: seq<bool>, n: nat, b: nat, c: nat)
    requires n <= |el| == |ps| && IsBest(ps, el, n, b) && IsBest(ps, el, n, c)
    ensures b == c
  {
  }

  /** The peers after b has been chosen among the eligible ones. */
  function Chosen(ps: seq<Peer>, el: seq<bool>, b: nat): (r: seq<Peer>)
    requires |el| == |ps| && b < |ps|
    ensures |r| == |ps|
    ensures forall i :: 0 <= i < |ps| ==>
      r[i].current == ps[i].current + (if el[i] then ps[i].effective else 0)
        - (if i == b then Total(ps, el, |ps|) else 0)
  {
    var up := Raised(ps, el);
    up[b := up[b].(current := up[b].current - Total(ps, el, |ps|))]
  }

  /** The sum of the first n current weights. */
  function Sum(ps: seq<Peer>, n: nat): int
    requires n <= |ps|
  {
    if n == 0 then 0 else Sum(ps, n - 1) + ps[n - 1].current
  }

  lemma {:induction false} SumChosen(ps: seq<Peer>, el: seq<bool>, b: nat, n: nat)
    requires |el| == |ps| && b < |ps| && n <= |ps|
    ensures Sum(Chosen(ps, el, b), n) ==
      Sum(ps, n) + Total(ps, el, n) - if b < n then Total(ps, el, |ps|) else 0
  {
    hide Chosen;
    if n > 0 {
      SumChosen(ps, el, b, n - 1);
    }
  }

  /** A choice, whatever peers are eligible, keeps the sum of the current weights. */
  lemma ChoiceKeepsSum(ps: seq<Peer>, el: seq<bool>, b: nat)
    requires |el| == |ps| && b < |ps|
    ensures Sum(Chosen(ps, el, b), |ps|) == Sum(ps, |ps|)
  {
    SumChosen(ps, el, b, |ps|);
  }

  // ---------- a request ----------

  class Balancer {
    var peers: seq<Peer>      // shared by all requests
    var tried: set<nat>       // of this request, as are the rest
    var hash: nat
    var tries: nat

    /** The scan of all peers for one point of the ring. */
    method Scan(server: Server, now: int) returns (best: Option<nat>, total: int)
      modifies `peers
      ensures var el := Flags(old(peers), tried, server, now);
        && peers == Raised(old(peers), el) && total == Total(old(peers), el, |el|)
        && (if best.Some? then IsBest(peers, el, |el|, best.value) else forall i :: 0 <= i < |el| ==> !el[i])
    {
      hide Scanned, Flags, Raised, RaisedPeer, IsBest, Total;
      var up := peers;
      ghost var el := Flags(peers, tried, server, now);
      best, total := None, 0;
      ScanStart(peers, el);
      for i := 0 to |peers|
        invariant |up| == |peers| && Scanned(peers, el, up, i, total, best)
        modifies {}
      {
        FlagAt(peers, tried, server, now, i);
        var peer := up[i];
        ghost var before := up;
        ScanAt(peers, el, up, i, total, best);
        if i in tried || peer.down || peer.server != server {
          ScanSkip(peers, el, up, i, total, best);
          continue;
        }
        if peer.maxFails > 0 && peer.fails >= peer.maxFails && now - peer.checked <= peer.failTimeout {
          ScanSkip(peers, el, up, i, total, best);
          continue;
        }
        ScanTake(peers, el, up, i, total, best);
        total := total + peer.effective;
        peer := peer.(current := peer.current + peer.effective);
        if peer.effective < peer.weight {
          peer := peer.(effective := peer.effective + 1);
        }
        assert peer == RaisedPeer(peers[i]) by { RaisedIs(peers[i]); }
        up := up[i := peer];
        if best.None? || peer.current > up[best.value].current {
          best := Some(i);
        }
      }
      ScanEnd(peers, el, up, total, best);
      peers := up;
    }

    /** No peer of the server of the ring's point at `at` is eligible. */
    ghost predicate NoneAt(points: seq<Point>, at: nat, now: int)
      reads this
      requires points != []
    {
      NoneEligible(Flags(peers, tried, points[Slot(at, |points|)].server, now))
    }

    ghost predicate NoneWithin(points: seq<Point>, start: nat, n: nat, now: int)
      reads this
      requires points != []
    {
      forall at :: start <= at < start + n ==> NoneAt(points, at, now)
    }

    /**
      ngx_stream_upstream_get_chash_peer; `walked` counts the points without an eligible peer.  A
      request looks at as many points as the ring has, all its calls together, but at one in each.
    */
    method GetPeer(points: seq<Point>, now: int) returns (rc: Rc, best: nat, ghost walked: nat)
      requires points != [] && hash + |points| < MAX32
      modifies this
      ensures old(NoneWithin(points, hash, walked, now))
      ensures hash == old(hash) + walked && tries == old(tries) + walked
      ensures rc == BUSY ==> peers == old(peers) && tried == old(tried)
      ensures rc == BUSY ==> walked == Budget(|points|, old(tries))
      ensures forall at :: old(hash) <= at < old(hash) + walked ==>
        AllPassed(old(peers), old(tried), points[Slot(at, |points|)].server, now)
      ensures rc == OK ==>
        && best < |old(peers)| && best !in old(tried)
        && !old(peers)[best].down && !Resting(old(peers)[best], now)
        && old(peers)[best].server == points[Slot(hash, |points|)].server
      ensures rc == OK ==>
        var el := old(Flags(peers, tried, points[Slot(hash + walked, |points|)].server, now));
        && walked < Budget(|points|, old(tries))
        && IsBest(Raised(old(peers), el), el, |el|, best)
        && peers == Taken(Chosen(old(peers), el, best), best, now) && tried == old(tried) + {best}
    {
      hide Raised, Flags, IsBest, Total, Chosen, Slot, AllPassed;
      walked := 0;
      while true
        invariant hash == old(hash) + walked && tries == old(tries) + walked
        invariant walked == 0 || tries < |points|
        invariant peers == old(peers) && tried == old(tried)
        invariant old(NoneWithin(points, hash, walked, now))
        invariant forall at :: old(hash) <= at < old(hash) + walked ==>
          AllPassed(old(peers), old(tried), points[Slot(at, |points|)].server, now)
        decreases |points| - tries
      {
        var server := points[Slot(hash, |points|)].server;
        ghost var el := Flags(peers, tried, server, now);
        var found, total := Scan(server, now);
        if found.Some? {
          best := found.value;
          BestFits(peers, el, best);
          FlagAt(old(peers), tried, server, now, best);
          peers := peers[best := peers[best].(current := peers[best].current - total)];
          assert peers == Chosen(old(peers), el, best) by { ChosenIs(old(peers), el, best); }
          break;
        }
        RaisedNone(old(peers), el);
        NonePassed(old(peers), tried, server, now);
        hash := (hash + 1) % MAX32;
        walked := walked + 1;
        tries := tries + 1;
        if tries >= |points| {
          return BUSY, 0, walked;
        }
      }
      TakenIs(peers, best, now);
      peers := peers[best := peers[best].(conns := peers[best].conns + 1)];
      if now - peers[best].checked > peers[best].failTimeout {
        peers := peers[best := peers[best].(checked := now)];
      }
      tried := tried + {best};
      rc := OK;
    }
  }

  /** How many points a call may still look at. */
  function Budget(n: nat, tries: nat): nat {
    if tries + 1 < n then n - tries else 1
  }

  ghost predicate NoneEligible(el: seq<bool>) {
    forall i :: 0 <= i < |el| ==> !el[i]
  }

  /** The connection is counted, and the time of the check is moved on. */
  function Taken(ps: seq<Peer>, b: nat, now: int): seq<Peer>
    requires b < |ps|
  {
    var p := ps[b];
    ps[b := p.(conns := p.conns + 1, checked := if now - p.checked > p.failTimeout then now else p.checked)]
  }

  /** A peer that has failed too often and gets a request after its time out rests again from then on. */
  lemma RestsAgain(ps: seq<Peer>, b: nat, now: int, later: int)
    requires b < |ps| && ps[b].maxFails > 0 && ps[b].fails >= ps[b].maxFails && !Resting(ps[b], now)
    requires now <= later <= now + ps[b].failTimeout
    ensures Resting(Taken(ps, b, now)[b], later) && Taken(ps, b, now)[b].conns == ps[b].conns + 1
  {
  }

  lemma TakenIs(ps: seq<Peer>, b: nat, now: int)
    requires b < |ps|
    ensures var ps1 := ps[b := ps[b].(conns := ps[b].conns + 1)];
      Taken(ps, b, now) == if now - ps[b].checked > ps[b].failTimeout then ps1[b := ps1[b].(checked := now)] else ps1
  {
  }

  lemma BestFits(ps: seq<Peer>, el: seq<bool>, b: nat)
    requires |el| == |ps| && IsBest(ps, el, |el|, b)
    ensures b < |ps| && el[b]
  {
  }

  lemma ChosenIs(ps: seq<Peer>, el: seq<bool>, b: nat)
    requires |el| == |ps| && b < |ps|
    ensures var up := Raised(ps, el);
      Chosen(ps, el, b) == up[b := up[b].(current := up[b].current - Total(ps, el, |el|))]
  {
  }

  lemma RaisedNone(ps: seq<Peer>, el: seq<bool>)
    requires |el| == |ps| && NoneEligible(el)
    ensures Raised(ps, el) == ps
  {
    hide RaisedPeer;
  }

  /** Every point of the ring is passed within its length. */
  lemma WalkCovers(h: nat, n: nat, k: nat) returns (j: nat)
    requires k < n
    ensures j < n && Slot(h + j, n) == k
  {
    var q, r := h / n, h % n;
    if r <= k {
      j := k - r;
      ModIs(h + j, q, n, k);
    } else {
      j := k + n - r;
      ModIs(h + j, q + 1, n, k);
    }
  }

  lemma ModIs(x: nat, q: nat, n: nat, k: nat)
    requires k < n && x == q * n + k
    ensures x % n == k
  {
    var q' := x / n;
    assert x == q' * n + x % n;
    if q' < q {
      MulGrows(q' + 1, q, n);
    } else if q < q' {
      MulGrows(q + 1, q', n);
    }
  }

  lemma MulGrows(a: nat, b: nat, n: nat)
    requires a <= b
    ensures a * n <= b * n
  {
  }

  /** So the first call of a request returns BUSY exactly if no server of the ring has an eligible peer. */
  lemma BusyMeansNone(b: Balancer, points: seq<Point>, now: int)
    requires points != []
    ensures b.NoneWithin(points, b.hash, Budget(|points|, 0), now)
       <==> (forall k :: 0 <= k < |points| ==> NoneEligible(Flags(b.peers, b.tried, points[k].server, now)))
  {
    hide Flags, NoneEligible, Slot;
    if b.NoneWithin(points, b.hash, Budget(|points|, 0), now) {
      forall k | 0 <= k < |points| ensures NoneEligible(Flags(b.peers, b.tried, points[k].server, now)) {
        var j := WalkCovers(b.hash, |points|, k);
        assert b.NoneAt(points, b.hash + j, now);
      }
    }
  }

  /** What the scan has done to the first i peers. */
  ghost predicate Scanned(ps: seq<Peer>, el: seq<bool>, up: seq<Peer>, i: nat, total: int, best: Option<nat>) {
    && i <= |ps| == |up| == |el|
    && (forall k :: 0 <= k < |up| ==> up[k] == if k < i && el[k] then RaisedPeer(ps[k]) else ps[k])
    && total == Total(ps, el, i)
    && (if best.Some? then IsBest(up, el, i, best.value) else forall k :: 0 <= k < i ==> !el[k])
  }

  lemma FlagAt(ps: seq<Peer>, tried: set<nat>, server: Server, now: int, i: nat)
    requires i < |ps|
    ensures |Flags(ps, tried, server, now)| == |ps|
    ensures Flags(ps, tried, server, now)[i] == Eligible(ps[i], i in tried, server, now)
  {
  }

  lemma RaisedIs(p: Peer)
    ensures RaisedPeer(p).current == p.current + p.effective
    ensures RaisedPeer(p) == p.(current := p.current + p.effective,
                                effective := if p.effective < p.weight then p.effective + 1 else p.effective)
  {
  }

  lemma ScanStart(ps: seq<Peer>, el: seq<bool>)
    requires |el| == |ps|
    ensures Scanned(ps, el, ps, 0, 0, None)
  {
  }

  lemma ScanAt(ps: seq<Peer>, el: seq<bool>, up: seq<Peer>, i: nat, total: int, best: Option<nat>)
    requires Scanned(ps, el, up, i, total, best) && i < |ps|
    ensures |up| == |ps| == |el| && up[i] == ps[i]
    ensures best.Some? ==> best.value < i
  {
    hide RaisedPeer;
  }

  lemma ScanSkip(ps: seq<Peer>, el: seq<bool>, up: seq<Peer>, i: nat, total: int, best: Option<nat>)
    requires Scanned(ps, el, up, i, total, best) && i < |ps| && |el| == |ps| && !el[i]
    ensures Scanned(ps, el, up, i + 1, total, best)
  {
    hide RaisedPeer;
  }

  lemma ScanTake(ps: seq<Peer>, el: seq<bool>, up: seq<Peer>, i: nat, total: int, best: Option<nat>)
    requires Scanned(ps, el, up, i, total, best) && i < |ps| && |el| == |ps| == |up| && el[i]
    requires best.Some? ==> best.value < i
    ensures var up', peer := up[i := RaisedPeer(ps[i])], RaisedPeer(ps[i]);
      var best' := if best.None? || peer.current > up[best.value].current then Some(i) else best;
      Scanned(ps, el, up', i + 1, total + ps[i].effective, best')
  {
    hide RaisedPeer;
  }

  lemma ScanEnd(ps: seq<Peer>, el: seq<bool>, up: seq<Peer>, total: int, best: Option<nat>)
    requires Scanned(ps, el, up, |ps|, total, best)
    ensures up == Raised(ps, el) && total == Total(ps, el, |el|)
    ensures if best.Some? then IsBest(up, el, |el|, best.value) else forall i :: 0 <= i < |el| ==> !el[i]
  {
    hide RaisedPeer;
  }

  // ---------- fairness ----------

  /** A choice of peer b among the eligible ones; counters that do not matter for the weights may change. */
  ghost predicate Turn(ps: seq<Peer>, ps': seq<Peer>, el: seq<bool>, b: nat) {
    && |ps'| == |ps| == |el| && IsBest(Raised(ps, el), el, |el|, b)
    && forall i :: 0 <= i < |ps| ==> SameWeights(ps'[i], Chosen(ps, el, b)[i])
  }

  predicate SameWeights(p: Peer, q: Peer) {
    p.weight == q.weight && p.effective == q.effective && p.current == q.current
  }

  /** What GetPeer does when it does not return BUSY is such a turn. */
  lemma GetPeerTurns(ps: seq<Peer>, el: seq<bool>, b: nat, now: int)
    requires |el| == |ps| && IsBest(Raised(ps, el), el, |el|, b)
    ensures Turn(ps, Taken(Chosen(ps, el, b), b, now), el, b)
  {
  }

  /** The choice depends on nothing but the weights and who is eligible, and so do the weights after it. */
  lemma TurnIsDetermined(ps: seq<Peer>, p1: seq<Peer>, p2: seq<Peer>, el: seq<bool>, b: nat, c: nat)
    requires Turn(ps, p1, el, b) && Turn(ps, p2, el, c)
    ensures b == c && forall i :: 0 <= i < |ps| ==> SameWeights(p1[i], p2[i])
  {
    hide Raised, Chosen, IsBest;
    BestIsUnique(Raised(ps, el), el, |el|, b, c);
  }

  /** How often peer i was chosen in the first t turns. */
  function Picks(bs: seq<nat>, t: nat, i: nat): nat
    requires t <= |bs|
  {
    if t == 0 then 0 else Picks(bs, t - 1, i) + if bs[t - 1] == i then 1 else 0
  }

  /** The eligible ones' share of the current weights. */
  function Share(ps: seq<Peer>, el: seq<bool>, n: nat): int
    requires n <= |ps| == |el|
  {
    if n == 0 then 0 else Share(ps, el, n - 1) + if el[n - 1] then ps[n - 1].current else 0
  }

  lemma {:induction false} ShareChosen(ps: seq<Peer>, ps': seq<Peer>, el: seq<bool>, b: nat, n: nat)
    requires Turn(ps, ps', el, b) && n <= |ps|
    ensures Share(ps', el, n) == Share(ps, el, n) + Total(ps, el, n) - if b < n then Total(ps, el, |ps|) else 0
  {
    hide Raised, Chosen;
    if n > 0 {
      ShareChosen(ps, ps', el, b, n - 1);
    }
  }

  lemma {:induction false} ShareNotPositive(ps: seq<Peer>, el: seq<bool>, n: nat)
    requires n <= |ps| == |el|
    requires forall i :: 0 <= i < n && el[i] ==> ps[i].current + ps[i].effective <= 0
    ensures Share(ps, el, n) + Total(ps, el, n) <= 0
  {
    if n > 0 {
      ShareNotPositive(ps, el, n - 1);
    }
  }

  /** The weights of turn t: all full, none overdrawn by a whole round, and the balance exact. */
  ghost predicate Balanced(ps: seq<Peer>, el: seq<bool>, bs: seq<nat>, t: nat, total: int) {
    && |ps| == |el| && t <= |bs| && Total(ps, el, |el|) == total && Share(ps, el, |el|) == 0
    && forall i :: 0 <= i < |ps| && el[i] ==>
      && ps[i].effective == ps[i].weight
      && ps[i].current == t * ps[i].weight - Picks(bs, t, i) * total
      && ps[i].current > -total
  }

  lemma {:induction false} TotalSame(ps: seq<Peer>, ps': seq<Peer>, el: seq<bool>, n: nat)
    requires n <= |ps| == |ps'| == |el|
    requires forall i :: 0 <= i < n && el[i] ==> ps'[i].effective == ps[i].effective
    ensures Total(ps', el, n) == Total(ps, el, n)
  {
    if n > 0 {
      TotalSame(ps, ps', el, n - 1);
    }
  }

  /** The chosen one had something to pay with. */
  lemma BestIsPositive(ps: seq<Peer>, el: seq<bool>, b: nat)
    requires |ps| == |el| && IsBest(Raised(ps, el), el, |el|, b)
    requires Share(ps, el, |el|) == 0 && Total(ps, el, |el|) > 0
    ensures ps[b].current + ps[b].effective > 0
  {
    if ps[b].current + ps[b].effective <= 0 {
      ShareNotPositive(ps, el, |el|);
    }
  }

  lemma PeerAfter(ps: seq<Peer>, ps': seq<Peer>, el: seq<bool>, b: nat, i: nat)
    requires Turn(ps, ps', el, b) && i < |ps| && el[i] && ps[i].effective == ps[i].weight
    ensures ps'[i].weight == ps'[i].effective == ps[i].weight
    ensures ps'[i].current == ps[i].current + ps[i].weight - if i == b then Total(ps, el, |el|) else 0
  {
  }

  lemma TurnKeepsBalance(ps: seq<Peer>, ps': seq<Peer>, el: seq<bool>, bs: seq<nat>, t: nat, total: int)
    requires Balanced(ps, el, bs, t, total) && total > 0 && t < |bs| && Turn(ps, ps', el, bs[t])
    requires forall i :: 0 <= i < |ps| && el[i] ==> ps[i].weight >= 0
    ensures Balanced(ps', el, bs, t + 1, total)
  {
    hide Turn, Chosen;
    var b := bs[t];
    TurnIs(ps, ps', el, b);
    BestIsPositive(ps, el, b);
    ShareChosen(ps, ps', el, b, |el|);
    forall i | 0 <= i < |ps| && el[i]
      ensures ps'[i].effective == ps'[i].weight == ps[i].weight && ps'[i].current > -total
      ensures ps'[i].current == (t + 1) * ps'[i].weight - Picks(bs, t + 1, i) * total
    {
      PeerAfter(ps, ps', el, b, i);
      OneMore(t, ps[i].weight, Picks(bs, t, i), total);
    }
    TotalSame(ps, ps', el, |el|);
  }

  lemma OneMore(t: nat, w: int, p: nat, total: int)
    ensures (t + 1) * w == t * w + w && (p + 1) * total == p * total + total
  {
  }

  lemma TurnIs(ps: seq<Peer>, ps': seq<Peer>, el: seq<bool>, b: nat)
    requires Turn(ps, ps', el, b)
    ensures |ps'| == |ps| == |el| && IsBest(Raised(ps, el), el, |el|, b) && b < |el|
  {
  }

  /** Consecutive turns with the same eligible peers. */
  ghost predicate Run(states: seq<seq<Peer>>, el: seq<bool>, bs: seq<nat>) {
    && |states| == |bs| + 1
    && forall t :: 0 <= t < |bs| ==> Turn(states[t], states[t + 1], el, bs[t])
  }

  /** All eligible peers have their full weight and no balance. */
  ghost predicate Fresh(ps: seq<Peer>, el: seq<bool>) {
    && |ps| == |el|
    && forall i :: 0 <= i < |ps| && el[i] ==> ps[i].weight >= 0 && ps[i].effective == ps[i].weight && ps[i].current == 0
  }

  lemma {:induction false} FreshShare(ps: seq<Peer>, el: seq<bool>, n: nat)
    requires Fresh(ps, el) && n <= |ps|
    ensures Share(ps, el, n) == 0
  {
    if n > 0 {
      FreshShare(ps, el, n - 1);
    }
  }

  lemma {:induction false} RunIsBalanced(states: seq<seq<Peer>>, el: seq<bool>, bs: seq<nat>, t: nat, total: int)
    requires Run(states, el, bs) && t <= |bs| && Fresh(states[0], el) && total == Total(states[0], el, |el|) > 0
    ensures Balanced(states[t], el, bs, t, total)
    ensures forall i :: 0 <= i < |el| && el[i] ==> states[t][i].weight == states[0][i].weight
  {
    hide Turn;
    if t == 0 {
      FreshShare(states[0], el, |el|);
    } else {
      RunIsBalanced(states, el, bs, t - 1, total);
      assert Turn(states[t - 1], states[t], el, bs[t - 1]);
      TurnKeepsBalance(states[t - 1], states[t], el, bs, t - 1, total);
      forall i | 0 <= i < |el| && el[i] ensures states[t][i].weight == states[t - 1][i].weight {
        PeerAfter(states[t - 1], states[t], el, bs[t - 1], i);
      }
    }
  }

  /** All picks of the first n peers in t turns. */
  function PicksOf(bs: seq<nat>, t: nat, el: seq<bool>, n: nat): nat
    requires t <= |bs| && n <= |el|
  {
    if n == 0 then 0 else PicksOf(bs, t, el, n - 1) + if el[n - 1] then Picks(bs, t, n - 1) else 0
  }

  lemma {:induction false} PicksOfNext(bs: seq<nat>, t: nat, el: seq<bool>, n: nat)
    requires t < |bs| && n <= |el|
    ensures PicksOf(bs, t + 1, el, n) == PicksOf(bs, t, el, n) + if bs[t] < n && el[bs[t]] then 1 else 0
  {
    if n > 0 {
      PicksOfNext(bs, t, el, n - 1);
    }
  }

  lemma {:induction false} PicksOfNone(bs: seq<nat>, el: seq<bool>, n: nat)
    requires n <= |el|
    ensures PicksOf(bs, 0, el, n) == 0
  {
    if n > 0 {
      PicksOfNone(bs, el, n - 1);
    }
  }

  /** In t turns there are t picks. */
  lemma {:induction false} PicksAdd(states: seq<seq<Peer>>, el: seq<bool>, bs: seq<nat>, t: nat)
    requires Run(states, el, bs) && t <= |bs|
    ensures PicksOf(bs, t, el, |el|) == t
  {
    hide Turn;
    if t == 0 {
      PicksOfNone(bs, el, |el|);
    } else {
      PicksAdd(states, el, bs, t - 1);
      assert Turn(states[t - 1], states[t], el, bs[t - 1]);
      TurnIs(states[t - 1], states[t], el, bs[t - 1]);
      PicksOfNext(bs, t - 1, el, |el|);
    }
  }

  /** If none has more picks than weight, and all together have as many, each has as many. */
  lemma {:induction false} NoneLess(ps: seq<Peer>, el: seq<bool>, bs: seq<nat>, n: nat)
    requires n <= |ps| == |el|
    requires forall i :: 0 <= i < |ps| && el[i] ==>
      ps[i].effective == ps[i].weight && Picks(bs, |bs|, i) <= ps[i].weight
    ensures PicksOf(bs, |bs|, el, n) <= Total(ps, el, n)
    ensures PicksOf(bs, |bs|, el, n) == Total(ps, el, n) ==>
      forall i :: 0 <= i < n && el[i] ==> Picks(bs, |bs|, i) == ps[i].weight
  {
    if n > 0 {
      NoneLess(ps, el, bs, n - 1);
    }
  }

  lemma NotMore(w: int, p: nat, total: int)
    requires total > 0 && total * w - p * total > -total
    ensures p <= w
  {
    if p >= w + 1 {
      MulUp(w + 1, p, total);
    }
  }

  lemma MulUp(a: int, b: int, n: int)
    requires a <= b && n > 0
    ensures a * n <= b * n && (b * n == n * b)
  {
  }

  /**
    The choice is exactly fair: over as many turns as the weights have units, from zero, each peer is
    chosen as often as its weight says, and all current weights are zero again.
  */
  lemma ExactlyFair(states: seq<seq<Peer>>, el: seq<bool>, bs: seq<nat>)
    requires Run(states, el, bs) && Fresh(states[0], el) && |bs| == Total(states[0], el, |el|) > 0
    ensures |states[|bs|]| == |states[0]| == |el|
    ensures forall i :: 0 <= i < |el| && el[i] ==>
      Picks(bs, |bs|, i) == states[0][i].weight && states[|bs|][i].current == 0
  {
    hide Turn, Picks, Total, PicksOf;
    var total := |bs|;
    RunIsBalanced(states, el, bs, total, total);
    var ps := states[total];
    forall i | 0 <= i < |el| && el[i] ensures Picks(bs, total, i) <= ps[i].weight {
      NotMore(ps[i].weight, Picks(bs, total, i), total);
    }
    NoneLess(ps, el, bs, |el|);
    PicksAdd(states, el, bs, total);
    forall i | 0 <= i < |el| && el[i] ensures ps[i].current == 0 {
      MulUp(ps[i].weight, ps[i].weight, total);
    }
  }

  // ---------- a round of requests ----------

  /** The peers of a server that are up and, whatever the time is, have not failed too often. */
  function Up(ps: seq<Peer>, server: Server): (el: seq<bool>)
    ensures |el| == |ps|
  {
    seq(|ps|, i requires 0 <= i < |ps| => !ps[i].down && ps[i].server == server)
  }

  ghost predicate Healthy(ps: seq<Peer>, server: Server) {
    forall i :: 0 <= i < |ps| && Up(ps, server)[i] ==> ps[i].maxFails == 0 || ps[i].fails < ps[i].maxFails
  }

  lemma HealthyFlags(ps: seq<Peer>, server: Server, now: int)
    requires Healthy(ps, server)
    ensures Flags(ps, {}, server, now) == Up(ps, server)
  {
    var el, up := Flags(ps, {}, server, now), Up(ps, server);
    forall i | 0 <= i < |ps| ensures el[i] == up[i] {
    }
  }

  /** Of a peer only the weights, the connections and the time of the check change. */
  predicate SameSettings(p: Peer, q: Peer) {
    p.server == q.server && p.down == q.down && p.maxFails == q.maxFails && p.fails == q.fails && p.weight == q.weight
  }

  lemma ChoiceKeepsSettings(ps: seq<Peer>, el: seq<bool>, b: nat, now: int)
    requires |el| == |ps| && b < |ps| && el[b]
    ensures var after := Taken(Chosen(ps, el, b), b, now);
      && |after| == |ps|
      && (forall i :: 0 <= i < |ps| ==> SameSettings(after[i], ps[i]))
      && (forall i :: 0 <= i < |ps| && !el[i] ==> after[i] == ps[i])
  {
    hide Total;
  }

  lemma SameUp(ps: seq<Peer>, ps': seq<Peer>, server: Server)
    requires |ps'| == |ps| && forall i :: 0 <= i < |ps| ==> SameSettings(ps'[i], ps[i])
    requires Healthy(ps, server)
    ensures Up(ps', server) == Up(ps, server) && Healthy(ps', server)
  {
    assert forall i :: 0 <= i < |ps| ==> SameSettings(ps'[i], ps[i]);
  }

  lemma {:induction false} SomeoneIsUp(ps: seq<Peer>, el: seq<bool>, n: nat)
    requires n <= |el| == |ps| && Total(ps, el, n) > 0
    ensures !NoneEligible(el)
  {
    if !el[n - 1] {
      SomeoneIsUp(ps, el, n - 1);
    }
  }

  /** All requests so far have got a peer; the others are as they were. */
  ghost predicate Round(
      first: seq<Peer>, states: seq<seq<Peer>>, el: seq<bool>, bs: seq<nat>, server: Server)
  {
    && Run(states, el, bs) && states[0] == first && |states[|bs|]| == |first| == |el|
    && Healthy(states[|bs|], server) && Up(states[|bs|], server) == el
    && forall i :: 0 <= i < |first| && !el[i] ==> states[|bs|][i] == first[i]
  }

  lemma RoundStarts(ps: seq<Peer>, server: Server)
    requires Healthy(ps, server)
    ensures Round(ps, [ps], Up(ps, server), [], server)
  {
  }

  lemma RoundGoesOn(first: seq<Peer>, states: seq<seq<Peer>>, el: seq<bool>, bs: seq<nat>, server: Server,
                    b: nat, now: int)
    requires Round(first, states, el, bs, server)
    requires IsBest(Raised(states[|bs|], el), el, |el|, b)
    ensures b < |el|
    ensures Round(first, states + [Taken(Chosen(states[|bs|], el, b), b, now)], el, bs + [b], server)
  {
    hide Turn, Taken, Chosen, Raised, Healthy, Up;
    var ps := states[|bs|];
    var ps' := Taken(Chosen(ps, el, b), b, now);
    BestFits(Raised(ps, el), el, b);
    GetPeerTurns(ps, el, b, now);
    ChoiceKeepsSettings(ps, el, b, now);
    SameUp(ps, ps', server);
    var states', bs' := states + [ps'], bs + [b];
    forall t | 0 <= t < |bs'| ensures Turn(states'[t], states'[t + 1], el, bs'[t]) {
      if t < |bs| {
        assert Turn(states[t], states[t + 1], el, bs[t]);
      }
    }
  }

  lemma SomeoneHere(b: Balancer, points: seq<Point>, now: int)
    requires points != [] && !NoneEligible(Flags(b.peers, b.tried, points[Slot(b.hash, |points|)].server, now))
    ensures !b.NoneAt(points, b.hash, now)
  {
  }

  /**
    Requests that the ring leads to one point, each at a time of its own, as many as the weights of its
    server's peers have units.  If these start with full weights and no balance, each is given to as
    many of the requests as its weight says, and in the end all balances are zero again.
   */
  method ServeRound(b: Balancer, points: seq<Point>, h: nat, now: nat -> int) returns (picks: seq<nat>)
    requires points != [] && h + |points| < MAX32
    requires Healthy(b.peers, points[Slot(h, |points|)].server)
    requires var el := Up(b.peers, points[Slot(h, |points|)].server);
      Fresh(b.peers, el) && Total(b.peers, el, |el|) > 0
    modifies b
    ensures var el := old(Up(b.peers, points[Slot(h, |points|)].server));
      && |b.peers| == |old(b.peers)| && |picks| == Total(old(b.peers), el, |el|)
      && (forall i :: 0 <= i < |el| && el[i] ==>
            Picks(picks, |picks|, i) == old(b.peers)[i].weight && b.peers[i].current == 0)
      && (forall i :: 0 <= i < |el| && !el[i] ==> b.peers[i] == old(b.peers)[i])
  {
    hide Flags, Up, Healthy, Run, Turn, Fresh, Total, Chosen, Raised, Taken, IsBest, NoneEligible, Slot, Picks;
    ghost var first := b.peers;
    var server := points[Slot(h, |points|)].server;
    ghost var el := Up(first, server);
    ghost var states := [first];
    var total := Total(b.peers, Up(b.peers, server), |b.peers|);
    picks := [];
    RoundStarts(first, server);
    SomeoneIsUp(first, el, |el|);
    while |picks| < total
      invariant |picks| <= total
      invariant Round(first, states, el, picks, server) && |states| == |picks| + 1 && states[|picks|] == b.peers
    {
      b.tried, b.hash, b.tries := {}, h, 0;
      HealthyFlags(b.peers, server, now(|picks|));
      SomeoneHere(b, points, now(|picks|));
      var rc, best;
      ghost var walked;
      rc, best, walked := b.GetPeer(points, now(|picks|));
      RoundGoesOn(first, states, el, picks, server, best, now(|picks|));
      states, picks := states + [b.peers], picks + [best];
    }
    ExactlyFair(states, el, picks);
  }

  /** A request that calls again gets another peer. */
  method NeverTwice(b: Balancer, points: seq<Point>, now: int, later: int)
      returns (first: Option<nat>, second: Option<nat>)
    requires points != [] && b.hash + 2 * |points| < MAX32
    modifies b
    ensures first.Some? && second.Some? ==> first != second
  {
    hide Flags, NoneEligible, IsBest, Raised, Chosen, Taken, Slot;
    first, second := None, None;
    var rc, best;
    ghost var walked;
    rc, best, walked := b.GetPeer(points, now);
    if rc == OK {
      first := Some(best);
      rc, best, walked := b.GetPeer(points, later);
      if rc == OK {
        second := Some(best);
      }
    }
  }
}
