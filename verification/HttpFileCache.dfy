/**
  The index of the shared HTTP cache, src/http/ngx_http_file_cache.c, as a step system.

  Worker requests, the cache manager, the loader and workers short of memory act on nodes in
  shared memory.  Each step below is one section of the source between locking and unlocking the
  cache mutex.  A deletion of a cached file takes two steps, since the mutex is released while the
  file is unlinked; so may a lookup, when there is no memory for a new node.  The order in which
  the processes take their steps is arbitrary.
 */
module HttpFileCache {
  import opened LruQueue

  type Key = int       // the MD5 of the cache key
  type RequestId = int
  type ProcessId = int
  const NULL: Ptr := 0

  /** ngx_http_file_cache_node_t */
  datatype Node = Node(
    key: Key, count: int, uses: int, error: int, present: bool, updating: bool, deleting: bool,
    uniq: int, expire: int, validSec: int, bodyStart: int, fsSize: int, lockTime: int)

  /** The part of ngx_http_cache_t, a request's view of the cache, that the index depends on. */
  datatype Request = Request(
    node: Ptr, updated: bool, updating: bool, secondary: bool, key: Key, main: Key, variant: Key, vary: bool,
    minUses: int, error: int, validSec: int, present: bool, uniq: int, bodyStart: int, lockTime: int,
    reply: Reply)

  /** What the last lookup has answered. */
  datatype Reply = Unasked | Told(rc: Rc)

  datatype State = State(
    nodes: map<Ptr, Node>,                // the allocated nodes
    tree: set<Ptr>,                       // the nodes in the red-black tree
    queue: seq<Ptr>,                      // the LRU queue
    shCount: int,                         // sh->count
    requests: map<RequestId, Request>,
    retrying: set<RequestId>,             // lookups that released the mutex for want of memory
    deleters: map<ProcessId, Ptr>,        // processes unlinking a file, with the node they will lock again
    now: int,                             // the clock
    inactive: nat)                        // cache->inactive

  datatype Rc = OK | DECLINED | AGAIN | ERROR

  // ---------- who refers to a node ----------

  /** The requests whose counted reference is to the node. */
  function Users(s: State, id: Ptr): set<RequestId> {
    set r | r in s.requests && s.requests[r].node == id && !s.requests[r].updated
  }

  /** The processes that are deleting the node. */
  function Deleters(s: State, id: Ptr): set<ProcessId> {
    set p | p in s.deleters && s.deleters[p] == id
  }

  // ---------- the sections ----------

  function Renewed(n: Node): Node {
    n.(error := 0, present := false, validSec := 0, uniq := 0, bodyStart := 0, fsSize := 0)
  }

  /** ngx_rbtree_delete, ngx_queue_remove, ngx_slab_free_locked, sh->count-- */
  function FreeNode(s: State, id: Ptr): State {
    s.(nodes := s.nodes - {id}, tree := s.tree - {id}, queue := Without(s.queue, id), shCount := s.shCount - 1)
  }

  /** The end of ngx_http_file_cache_exists: a fresh expiry time, the head of the queue, the request's view. */
  function Attach(s: State, r: RequestId, id: Ptr, n: Node, rq: Request, rc: Rc, queue: seq<Ptr>): State {
    s.(nodes := s.nodes[id := n.(expire := s.now + s.inactive)],
       queue := [id] + queue,
       requests := s.requests[r := rq.(uniq := n.uniq, error := n.error, node := id, reply := Told(rc))])
  }

  /** What ngx_http_file_cache_exists makes of a node that is there. */
  function Inspect(n0: Node, rq: Request, now: int): (Node, Request, Rc) {
    var n := if rq.node == NULL then n0.(uses := n0.uses + 1, count := n0.count + 1) else n0;
    if n.error != 0 then
      if n.validSec < now then (Renewed(n), rq, DECLINED) else (n, rq, OK)
    else if n.present || n.uses >= rq.minUses then
      (n, rq.(present := n.present, bodyStart := if n.bodyStart != 0 then n.bodyStart else rq.bodyStart), OK)
    else
      (n, rq, AGAIN)
  }

  /** ngx_http_file_cache_exists for a node the request holds or the lookup finds */
  function ExistsFound(s: State, r: RequestId, id: Ptr): State
    requires r in s.requests && id in s.nodes
  {
    var (n, rq, rc) := Inspect(s.nodes[id], s.requests[r], s.now);
    Attach(s, r, id, n, rq, rc, Without(s.queue, id))
  }

  /** ngx_http_file_cache_exists with a new node, allocated at `id` */
  function ExistsNew(s: State, r: RequestId, id: Ptr): State
    requires r in s.requests
  {
    var rq := s.requests[r];
    var n := Node(rq.key, 1, 1, 0, false, false, false, 0, 0, 0, 0, 0, 0);
    var s' := s.(tree := s.tree + {id}, shCount := s.shCount + 1, retrying := s.retrying - {r});
    Attach(s', r, id, n, rq, DECLINED, s.queue)
  }

  /** ngx_http_file_cache_reopen: the request lets go of its node and turns to the variant's key. */
  function Reopen(s: State, r: RequestId): State
    requires r in s.requests && s.requests[r].node in s.nodes
  {
    var rq := s.requests[r];
    var n := s.nodes[rq.node];
    s.(nodes := s.nodes[rq.node := n.(count := n.count - 1)],
       requests := s.requests[r := rq.(node := NULL, secondary := true, key := rq.variant)])
  }

  /** ngx_http_file_cache_update_variant: back to the main key */
  function SwitchBack(s: State, r: RequestId): State
    requires r in s.requests && s.requests[r].node in s.nodes
  {
    var rq := s.requests[r];
    var n := s.nodes[rq.node];
    s.(nodes := s.nodes[rq.node := n.(count := n.count - 1, updating := false)],
       requests := s.requests[r := rq.(node := NULL, key := rq.main)])
  }

  /** ngx_http_file_cache_update, after the rename that `ok` reports on */
  function Update(s: State, r: RequestId, ok: bool, uniq: int, fsSize: int): State
    requires r in s.requests && s.requests[r].node in s.nodes
  {
    var rq := s.requests[r];
    var n := s.nodes[rq.node];
    s.(nodes := s.nodes[rq.node := n.(count := n.count - 1, uniq := uniq, bodyStart := rq.bodyStart,
                                      fsSize := fsSize, present := n.present || ok, updating := false)],
       requests := s.requests[r := rq.(updated := true, updating := false)])
  }

  /** A node after ngx_http_file_cache_free has let go of it. */
  function Released(n0: Node, rq: Request): Node {
    var n1 := n0.(count := n0.count - 1,
                  updating := n0.updating && !(rq.updating && n0.lockTime == rq.lockTime));
    if rq.error == 0 then n1
    else n1.(error := rq.error, validSec := if rq.validSec != 0 then rq.validSec else n1.validSec)
  }

  /** ngx_http_file_cache_free, also called by the request's cleanup */
  function Free(s: State, r: RequestId): State
    requires r in s.requests && s.requests[r].node in s.nodes
  {
    var rq := s.requests[r];
    var n := Released(s.nodes[rq.node], rq);
    var drop := rq.error == 0 && !n.present && n.count == 0 && rq.minUses == 1;
    var rq' := rq.(node := if drop then NULL else rq.node, updated := true, updating := false);
    var s1 := s.(nodes := s.nodes[rq.node := n], requests := s.requests[r := rq']);
    if drop then FreeNode(s1, rq.node) else s1
  }

  /** ngx_http_file_cache_lock: the right to fill the node, for at most lock_age */
  function Lock(s: State, r: RequestId, msec: int, age: int): State
    requires r in s.requests && s.requests[r].node in s.nodes
  {
    var rq := s.requests[r];
    var n := s.nodes[rq.node];
    if !n.updating || n.lockTime - msec <= 0 then
      s.(nodes := s.nodes[rq.node := n.(updating := true, lockTime := msec + age)],
         requests := s.requests[r := rq.(updating := true, lockTime := msec + age)])
    else s
  }

  /** The sections of ngx_http_file_cache_read: a file found while the loader is at work; a stale file. */
  function ReadCold(s: State, r: RequestId, fsSize: int): State
    requires r in s.requests && s.requests[r].node in s.nodes
  {
    var rq := s.requests[r];
    var n := s.nodes[rq.node];
    if n.present then s
    else s.(nodes := s.nodes[rq.node := n.(uses := 1, bodyStart := rq.bodyStart, present := true,
                                           uniq := rq.uniq, fsSize := fsSize)])
  }

  function ReadStale(s: State, r: RequestId): State
    requires r in s.requests && s.requests[r].node in s.nodes
  {
    var rq := s.requests[r];
    var n := s.nodes[rq.node];
    if n.updating then s
    else s.(nodes := s.nodes[rq.node := n.(updating := true)],
            requests := s.requests[r := rq.(updating := true, lockTime := n.lockTime)])
  }

  /** The first half of ngx_http_file_cache_delete: free the node, or mark it and release the mutex. */
  function DeleteBegin(s: State, p: ProcessId, id: Ptr): State
    requires id in s.nodes
  {
    var n := s.nodes[id];
    if n.present then
      s.(nodes := s.nodes[id := n.(count := n.count + 1, deleting := true)], deleters := s.deleters[p := id])
    else if n.count == 0 then FreeNode(s, id)
    else s
  }

  /** The second half, with the mutex held again. */
  function DeleteFinish(s: State, p: ProcessId): State
    requires p in s.deleters && s.deleters[p] in s.nodes
  {
    var id := s.deleters[p];
    var n := s.nodes[id].(count := s.nodes[id].count - 1, deleting := false);
    var s1 := s.(nodes := s.nodes[id := n], deleters := s.deleters - {p});
    if n.count == 0 then FreeNode(s1, id) else s1
  }

  /** ngx_http_file_cache_expire on an entry long in use: back to the head of the queue */
  function Postpone(s: State, id: Ptr): State
    requires id in s.nodes
  {
    s.(nodes := s.nodes[id := s.nodes[id].(expire := s.now + s.inactive)], queue := [id] + Without(s.queue, id))
  }

  /** ngx_http_file_cache_add by the loader: a node without users, or a known one moved to the head */
  function Add(s: State, id: Ptr, key: Key, fsSize: int): State {
    var expire := s.now + s.inactive;
    if id in s.nodes then Postpone(s, id)
    else
      s.(nodes := s.nodes[id := Node(key, 0, 1, 0, true, false, false, 0, expire, 0, 0, fsSize, 0)],
         tree := s.tree + {id}, queue := [id] + s.queue, shCount := s.shCount + 1)
  }

  // ---------- victims ----------

  /** The queue as ngx_http_file_cache_forced_expire scans it from its end: the first unused node in 20. */
  function ForcedVictim(nodes: map<Ptr, Node>, queue: seq<Ptr>, tries: nat): Ptr {
    if queue == [] || tries == 0 then NULL
    else
      var id := queue[|queue| - 1];
      if id !in nodes || nodes[id].count == 0 then id
      else ForcedVictim(nodes, queue[..|queue| - 1], tries - 1)
  }

  /** The node at the end of the queue, once its time has come: what ngx_http_file_cache_expire looks at. */
  predicate Expired(s: State, id: Ptr) {
    s.queue != [] && id == s.queue[|s.queue| - 1] && (id in s.nodes ==> s.nodes[id].expire <= s.now)
  }

  // ---------- the step system ----------

  datatype Step =
    | Arrive(r: RequestId, rq: Request)
    | Found(r: RequestId, id: Ptr)
    | New(r: RequestId, id: Ptr)
    | NoMemory(r: RequestId)
    | GiveUp(r: RequestId)
    | DoReopen(r: RequestId)
    | DoSwitchBack(r: RequestId)
    | DoUpdate(r: RequestId, ok: bool, uniq: int, fsSize: int)
    | DoFree(r: RequestId)
    | DoLock(r: RequestId, msec: int, age: int)
    | DoReadCold(r: RequestId, fsSize: int)
    | DoReadStale(r: RequestId)
    | BeginDelete(p: ProcessId, id: Ptr)
    | FinishDelete(p: ProcessId)
    | DoPostpone(id: Ptr)
    | DoAdd(id: Ptr, key: Key, fsSize: int)
    | Tick(now: int)

  /** A request in a state from which it may enter a section that uses its node. */
  predicate Holding(s: State, r: RequestId) {
    r in s.requests && !s.requests[r].updated && s.requests[r].node != NULL
  }

  /** Whether the lookup finds no node for the key. */
  predicate Absent(s: State, key: Key) {
    forall id :: id in s.tree && id in s.nodes ==> s.nodes[id].key != key
  }

  predicate Enabled(s: State, step: Step) {
    match step
    case Arrive(r, rq) => r !in s.requests && rq.node == NULL && !rq.updated
    case Found(r, id) =>
      && r in s.requests && !s.requests[r].updated && r !in s.retrying && id != NULL
      && (if s.requests[r].node != NULL then s.requests[r].node == id
          else id in s.tree && (id in s.nodes ==> s.nodes[id].key == s.requests[r].key))
    case New(r, id) =>
      && r in s.requests && !s.requests[r].updated && s.requests[r].node == NULL
      && id != NULL && id !in s.nodes && (r in s.retrying || Absent(s, s.requests[r].key))
    case NoMemory(r) =>
      && r in s.requests && !s.requests[r].updated && s.requests[r].node == NULL && r !in s.retrying
      && Absent(s, s.requests[r].key)
    case GiveUp(r) => r in s.retrying
    case DoReopen(r) => Holding(s, r) && !s.requests[r].secondary
    case DoSwitchBack(r) =>
      && Holding(s, r) && s.requests[r].secondary
      && !(s.requests[r].vary && s.requests[r].variant == s.requests[r].key)
    case DoUpdate(r, _, _, _) => Holding(s, r)
    case DoFree(r) => Holding(s, r)
    case DoLock(r, _, _) => Holding(s, r)
    case DoReadCold(r, _) => Holding(s, r)
    case DoReadStale(r) => Holding(s, r)
    case BeginDelete(p, id) =>
      && p !in s.deleters && id != NULL && (id in s.nodes ==> s.nodes[id].count == 0)
      && (Expired(s, id) || id == ForcedVictim(s.nodes, s.queue, 20))
    case FinishDelete(p) => p in s.deleters
    case DoPostpone(id) => Expired(s, id) && (id in s.nodes ==> s.nodes[id].count != 0 && !s.nodes[id].deleting)
    case DoAdd(id, key, _) =>
      if id in s.tree then id in s.nodes ==> s.nodes[id].key == key
      else id != NULL && id !in s.nodes && Absent(s, key)
    case Tick(now) => now >= s.now
  }

  /** A lookup may come by any node of the tree. */
  predicate TreeAllocated(s: State) {
    forall id :: id in s.tree ==> id in s.nodes
  }

  /** The memory that a step follows a pointer into is still allocated. */
  predicate Safe(s: State, step: Step)
    requires Enabled(s, step)
  {
    match step
    case Found(r, id) => id in s.nodes && (s.requests[r].node == NULL ==> TreeAllocated(s))
    case New(r, _) => r !in s.retrying ==> TreeAllocated(s)
    case NoMemory(_) => TreeAllocated(s)
    case DoReopen(r) => s.requests[r].node in s.nodes
    case DoSwitchBack(r) => s.requests[r].node in s.nodes
    case DoUpdate(r, _, _, _) => s.requests[r].node in s.nodes
    case DoFree(r) => s.requests[r].node in s.nodes
    case DoLock(r, _, _) => s.requests[r].node in s.nodes
    case DoReadCold(r, _) => s.requests[r].node in s.nodes
    case DoReadStale(r) => s.requests[r].node in s.nodes
    case FinishDelete(p) => s.deleters[p] in s.nodes
    case BeginDelete(_, id) => id in s.nodes
    case DoPostpone(id) => id in s.nodes
    case DoAdd(_, _, _) => TreeAllocated(s)
    case _ => true
  }

  function After(s: State, step: Step): State
    requires Enabled(s, step) && Safe(s, step)
  {
    match step
    case Arrive(r, rq) => s.(requests := s.requests[r := rq])
    case Found(r, id) => ExistsFound(s, r, id)
    case New(r, id) => ExistsNew(s, r, id)
    case NoMemory(r) => s.(retrying := s.retrying + {r})
    case GiveUp(r) =>
      if r !in s.requests then s
      else s.(retrying := s.retrying - {r}, requests := s.requests[r := s.requests[r].(reply := Told(ERROR))])
    case DoReopen(r) => Reopen(s, r)
    case DoSwitchBack(r) => SwitchBack(s, r)
    case DoUpdate(r, ok, uniq, fsSize) => Update(s, r, ok, uniq, fsSize)
    case DoFree(r) => Free(s, r)
    case DoLock(r, msec, age) => Lock(s, r, msec, age)
    case DoReadCold(r, fsSize) => ReadCold(s, r, fsSize)
    case DoReadStale(r) => ReadStale(s, r)
    case BeginDelete(p, id) => DeleteBegin(s, p, id)
    case FinishDelete(p) => DeleteFinish(s, p)
    case DoPostpone(id) => Postpone(s, id)
    case DoAdd(id, key, fsSize) => Add(s, id, key, fsSize)
    case Tick(now) => s.(now := now)
  }

  // ---------- the invariant ----------

  /** Tree, queue, node memory and sh->count agree. */
  ghost predicate Indexed(s: State) {
    && s.nodes.Keys == s.tree && Lists(s.queue, s.tree) && s.shCount == |s.tree| && NULL !in s.tree
  }

  /** A node's count is its users plus one while it is being deleted, and nothing else refers to it. */
  ghost predicate Counted(s: State) {
    && (forall id :: id in s.nodes ==> s.nodes[id].count == |Users(s, id)| + |Deleters(s, id)|)
    && (forall r :: r in s.requests && !s.requests[r].updated && s.requests[r].node != NULL ==>
          s.requests[r].node in s.nodes)
    && (forall p :: p in s.deleters ==> s.deleters[p] in s.nodes && s.nodes[s.deleters[p]].deleting)
    && (forall id :: id in s.nodes ==> |Deleters(s, id)| <= 1 && (s.nodes[id].deleting <==> Deleters(s, id) != {}))
    && (forall r :: r in s.retrying ==> r in s.requests && s.requests[r].node == NULL)
  }

  /** The queue is ordered by expiry time, latest first. */
  ghost predicate Ordered(nodes: map<Ptr, Node>, queue: seq<Ptr>) {
    forall i, j :: 0 <= i < j < |queue| && queue[i] in nodes && queue[j] in nodes ==>
      nodes[queue[i]].expire >= nodes[queue[j]].expire
  }

  ghost predicate Timely(s: State) {
    && Ordered(s.nodes, s.queue)
    && (forall id :: id in s.nodes ==> s.nodes[id].expire <= s.now + s.inactive)
  }

  ghost predicate Inv(s: State) {
    Indexed(s) && Counted(s) && Timely(s)
  }

  // ---------- the invariant is kept: references ----------

  /** Users after one request's record has changed. */
  lemma UsersSet(s: State, s': State, r: RequestId, rq: Request, id: Ptr)
    requires s'.requests == s.requests[r := rq]
    ensures Users(s', id) == Users(s, id) - {r} + if rq.node == id && !rq.updated then {r} else {}
  {
  }

  /** The same requests hold the same nodes. */
  ghost predicate SameHolders(before: map<RequestId, Request>, after: map<RequestId, Request>) {
    && after.Keys == before.Keys
    && forall r :: r in before ==> after[r].node == before[r].node && after[r].updated == before[r].updated
  }

  lemma SameUsers(s: State, s': State, id: Ptr)
    requires SameHolders(s.requests, s'.requests) && s'.deleters == s.deleters
    ensures Users(s', id) == Users(s, id) && Deleters(s', id) == Deleters(s, id)
  {
    forall r ensures r in Users(s', id) <==> r in Users(s, id) {
      if r in s.requests {
        assert s'.requests[r].node == s.requests[r].node;
      }
    }
  }

  lemma SameReferences(s: State, s': State)
    requires Counted(s) && SameHolders(s.requests, s'.requests) && s'.deleters == s.deleters
    requires forall r :: r in s'.retrying ==> r in s.requests && s.requests[r].node == NULL
    requires forall id :: id in s.nodes ==>
      id in s'.nodes && s'.nodes[id].count == s.nodes[id].count && s'.nodes[id].deleting == s.nodes[id].deleting
    requires forall id :: id in s'.nodes && id !in s.nodes ==> s'.nodes[id].count == 0 && !s'.nodes[id].deleting
    requires NULL !in s'.nodes
    ensures Counted(s')
  {
    forall id | id in s'.nodes
      ensures s'.nodes[id].count == |Users(s', id)| + |Deleters(s', id)|
      ensures |Deleters(s', id)| <= 1 && (s'.nodes[id].deleting <==> Deleters(s', id) != {})
    {
      SameUsers(s, s', id);
      if id !in s.nodes {
        Unreferenced(s, id);
      }
    }
    forall p | p in s'.deleters ensures s'.deleters[p] in s'.nodes && s'.nodes[s'.deleters[p]].deleting {
      var id := s.deleters[p];
      assert id in s.nodes && s.nodes[id].deleting;
      assert s'.nodes[id].deleting == s.nodes[id].deleting;
    }
  }

  /** Nothing refers to memory that is not an allocated node. */
  lemma Unreferenced(s: State, id: Ptr)
    requires Counted(s) && id !in s.nodes && id != NULL
    ensures Users(s, id) == {} && Deleters(s, id) == {}
  {
    assert forall r :: r !in Users(s, id);
    assert forall p :: p !in Deleters(s, id);
  }

  /** A change of one request's record, with the count of its node changed accordingly. */
  lemma OneRequest(s: State, s': State, r: RequestId, rq: Request, id: Ptr, n: Node, delta: int)
    requires Counted(s) && s'.requests == s.requests[r := rq] && s'.deleters == s.deleters
    requires s'.retrying <= s.retrying && r !in s'.retrying && id != NULL
    requires s'.nodes == s.nodes[id := n] && NULL !in s.nodes
    requires var before := if id in s.nodes then s.nodes[id].count else 0; n.count == before + delta
    requires n.deleting == (id in s.nodes && s.nodes[id].deleting)
    requires r in s.requests && !s.requests[r].updated
    requires s.requests[r].node == id || s.requests[r].node == NULL
    requires rq.node == id || rq.node == NULL
    requires delta == (if rq.node == id && !rq.updated then 1 else 0) - (if s.requests[r].node == id then 1 else 0)
    ensures Counted(s')
  {
    forall x | x in s'.nodes
      ensures s'.nodes[x].count == |Users(s', x)| + |Deleters(s', x)|
      ensures |Deleters(s', x)| <= 1 && (s'.nodes[x].deleting <==> Deleters(s', x) != {})
    {
      assert Deleters(s', x) == Deleters(s, x);
      if x !in s.nodes {
        Unreferenced(s, x);
      }
      OneUser(s, s', r, rq, x);
    }
  }

  /** How many users a node has after one request's record has changed. */
  lemma OneUser(s: State, s': State, r: RequestId, rq: Request, x: Ptr)
    requires s'.requests == s.requests[r := rq] && r in s.requests && !s.requests[r].updated
    ensures |Users(s', x)| == |Users(s, x)| + (if rq.node == x && !rq.updated then 1 else 0)
                                            - (if s.requests[r].node == x then 1 else 0)
  {
    UsersSet(s, s', r, rq, x);
    assert (r in Users(s, x)) == (s.requests[r].node == x);
  }

  /** Freeing a node with count 0. */
  lemma FreeKeepsCounted(s: State, id: Ptr)
    requires Counted(s) && id in s.nodes && s.nodes[id].count == 0
    ensures Counted(FreeNode(s, id))
  {
    var s' := FreeNode(s, id);
    assert Users(s, id) == {} && Deleters(s, id) == {};
    forall x ensures Users(s', x) == Users(s, x) && Deleters(s', x) == Deleters(s, x) {
    }
    forall r | r in s'.requests && !s'.requests[r].updated && s'.requests[r].node != NULL
      ensures s'.requests[r].node in s'.nodes
    {
      assert r in Users(s, s.requests[r].node);
    }
    forall p | p in s'.deleters ensures s'.deleters[p] in s'.nodes {
      assert p in Deleters(s, s.deleters[p]);
    }
  }

  lemma BeginKeepsCounted(s: State, p: ProcessId, id: Ptr)
    requires Counted(s) && p !in s.deleters && id in s.nodes && s.nodes[id].count == 0 && s.nodes[id].present
    ensures Counted(DeleteBegin(s, p, id))
  {
    var s' := DeleteBegin(s, p, id);
    assert Deleters(s, id) == {};
    forall x | x in s'.nodes
      ensures s'.nodes[x].count == |Users(s', x)| + |Deleters(s', x)|
      ensures |Deleters(s', x)| <= 1 && (s'.nodes[x].deleting <==> Deleters(s', x) != {})
    {
      assert Users(s', x) == Users(s, x);
      assert Deleters(s', x) == Deleters(s, x) + if x == id then {p} else {};
    }
  }

  /** The state in the middle of DeleteFinish: the mark is gone, the node not yet freed. */
  function Unmark(s: State, p: ProcessId): State
    requires p in s.deleters && s.deleters[p] in s.nodes
  {
    var id := s.deleters[p];
    s.(nodes := s.nodes[id := s.nodes[id].(count := s.nodes[id].count - 1, deleting := false)],
       deleters := s.deleters - {p})
  }

  lemma UnmarkKeepsCounted(s: State, p: ProcessId)
    requires Counted(s) && p in s.deleters
    ensures Counted(Unmark(s, p))
  {
    var id := s.deleters[p];
    var s' := Unmark(s, p);
    assert p in Deleters(s, id);
    assert Deleters(s, id) == {p} by {
      forall q | q in Deleters(s, id) ensures q == p {
        if q != p {
          CardinalityOfSubset({p, q}, Deleters(s, id));
        }
      }
    }
    forall x | x in s'.nodes
      ensures s'.nodes[x].count == |Users(s', x)| + |Deleters(s', x)|
      ensures |Deleters(s', x)| <= 1 && (s'.nodes[x].deleting <==> Deleters(s', x) != {})
    {
      assert Users(s', x) == Users(s, x);
      assert Deleters(s', x) == Deleters(s, x) - if x == id then {p} else {};
    }
    forall q | q in s'.deleters ensures s'.nodes[s'.deleters[q]].deleting {
      assert q in Deleters(s, s.deleters[q]);
    }
  }

  lemma CardinalityOfSubset(a: set<ProcessId>, b: set<ProcessId>)
    requires a <= b
    ensures |a| <= |b|
  {
    assert b == a + (b - a);
  }

  // ---------- the invariant is kept: the queue ----------

  /** Moving an entry to the head with the latest expiry time. */
  lemma OrderedPush(nodes: map<Ptr, Node>, queue: seq<Ptr>, nodes': map<Ptr, Node>, id: Ptr)
    requires Ordered(nodes, queue) && id !in queue && id in nodes'
    requires forall x :: x in queue && x in nodes ==> x in nodes' && nodes'[x].expire == nodes[x].expire
    requires forall x :: x in queue ==> x in nodes && nodes[x].expire <= nodes'[id].expire
    ensures Ordered(nodes', [id] + queue)
  {
    var q := [id] + queue;
    forall i, j | 0 <= i < j < |q| && q[i] in nodes' && q[j] in nodes'
      ensures nodes'[q[i]].expire >= nodes'[q[j]].expire
    {
      assert q[j] == queue[j - 1] && q[j] in queue;
      if i > 0 {
        assert q[i] == queue[i - 1] && q[i] in queue;
      }
    }
  }

  lemma OrderedWithout(nodes: map<Ptr, Node>, queue: seq<Ptr>, id: Ptr)
    requires Ordered(nodes, queue) && id in queue
    ensures Ordered(nodes, Without(queue, id))
  {
    var k := WithoutSplits(queue, id);
    var q := Without(queue, id);
    forall i, j | 0 <= i < j < |q| && q[i] in nodes && q[j] in nodes
      ensures nodes[q[i]].expire >= nodes[q[j]].expire
    {
      assert q[i] == queue[if i < k then i else i + 1];
      assert q[j] == queue[if j < k then j else j + 1];
    }
  }

  lemma OrderedSame(nodes: map<Ptr, Node>, queue: seq<Ptr>, nodes': map<Ptr, Node>)
    requires Ordered(nodes, queue)
    requires forall x :: x in queue && x in nodes' ==> x in nodes && nodes'[x].expire == nodes[x].expire
    ensures Ordered(nodes', queue)
  {
    forall i, j | 0 <= i < j < |queue| && queue[i] in nodes' && queue[j] in nodes'
      ensures nodes'[queue[i]].expire >= nodes'[queue[j]].expire
    {
      var x, y := queue[i], queue[j];
      assert x in queue && y in queue;
    }
  }

  /** A node goes to the head, from its place in the queue or from nowhere. */
  ghost predicate GoesToHead(s: State, s': State, id: Ptr) {
    && id != NULL && id in s'.nodes
    && s'.nodes.Keys == s.nodes.Keys + {id} && s'.tree == s.tree + {id}
    && s'.shCount == s.shCount + (if id in s.tree then 0 else 1)
    && s'.queue == [id] + Without(s.queue, id) && s'.now == s.now && s'.inactive == s.inactive
    && s'.nodes[id].expire == s.now + s.inactive
    && forall x :: x in s.nodes && x in s'.nodes && x != id ==> s'.nodes[x].expire == s.nodes[x].expire
  }

  lemma ToHeadIndexed(s: State, s': State, id: Ptr)
    requires Indexed(s) && GoesToHead(s, s', id)
    ensures Indexed(s') && Lists(Without(s.queue, id), s.tree - {id})
  {
    var rest := Without(s.queue, id);
    if id in s.tree {
      ListsWithout(s.queue, s.tree, id);
      assert s.tree - {id} + {id} == s.tree == s'.tree;
    } else {
      NotQueued(s, id);
      assert s.tree - {id} == s.tree;
    }
    ListsPush(rest, s.tree - {id}, id);
  }

  lemma ToHead(s: State, s': State, id: Ptr)
    requires Indexed(s) && Timely(s) && GoesToHead(s, s', id)
    ensures Indexed(s') && Timely(s')
  {
    hide Lists, Ordered;
    ToHeadIndexed(s, s', id);
    RestFacts(s, id);
    OrderedPush(s.nodes, Without(s.queue, id), s'.nodes, id);
  }

  /** The queue without a node: still ordered, and only other nodes are in it. */
  lemma RestFacts(s: State, id: Ptr)
    requires Indexed(s) && Timely(s)
    ensures Ordered(s.nodes, Without(s.queue, id))
    ensures id !in Without(s.queue, id)
    ensures forall x :: x in Without(s.queue, id) ==> x in s.nodes && x != id && s.nodes[x].expire <= s.now + s.inactive
  {
    hide Lists, Ordered;
    if id in s.tree {
      ListsFacts(s.queue, s.tree);
      ListsWithout(s.queue, s.tree, id);
      OrderedWithout(s.nodes, s.queue, id);
    } else {
      NotQueued(s, id);
      assert s.tree - {id} == s.tree;
    }
    ListsFacts(Without(s.queue, id), s.tree - {id});
  }

  lemma {:induction false} WithoutAbsent(q: seq<Ptr>, x: Ptr)
    requires x !in q
    ensures Without(q, x) == q
  {
    if q != [] {
      WithoutAbsent(q[1..], x);
    }
  }

  lemma FreeKeepsOrder(s: State, id: Ptr)
    requires Indexed(s) && Timely(s) && id in s.nodes
    ensures Indexed(FreeNode(s, id)) && Timely(FreeNode(s, id))
  {
    ListsFacts(s.queue, s.tree);
    ListsWithout(s.queue, s.tree, id);
    OrderedWithout(s.nodes, s.queue, id);
    OrderedSame(s.nodes, Without(s.queue, id), s.nodes - {id});
  }

  lemma SameOrder(s: State, s': State)
    requires Indexed(s) && Timely(s)
    requires s'.nodes.Keys == s.nodes.Keys && s'.tree == s.tree && s'.queue == s.queue && s'.shCount == s.shCount
    requires forall x :: x in s.nodes ==> s'.nodes[x].expire == s.nodes[x].expire
    requires s'.now >= s.now && s'.inactive == s.inactive
    ensures Indexed(s') && Timely(s')
  {
    OrderedSame(s.nodes, s.queue, s'.nodes);
  }

  // ---------- every step keeps the invariant ----------

  lemma FoundKeepsInv(s: State, r: RequestId, id: Ptr)
    requires Inv(s) && Enabled(s, Found(r, id)) && Safe(s, Found(r, id))
    ensures Inv(ExistsFound(s, r, id))
  {
    hide Lists, Ordered, Counted, Timely, Inspect;
    var s' := ExistsFound(s, r, id);
    var rq := s.requests[r];
    InspectEffect(s.nodes[id], rq, s.now);
    OneRequest(s, s', r, s'.requests[r], id, s'.nodes[id], if rq.node == NULL then 1 else 0);
    ToHead(s, s', id);
  }

  /** The branches of a lookup differ only in fields that the invariant does not speak of. */
  lemma InspectEffect(n: Node, rq: Request, now: int)
    ensures var (n', rq', _) := Inspect(n, rq, now);
      && n'.count == n.count + (if rq.node == NULL then 1 else 0)
      && n'.deleting == n.deleting && rq'.node == rq.node && rq'.updated == rq.updated
  {
  }

  lemma NewKeepsInv(s: State, r: RequestId, id: Ptr)
    requires Inv(s) && Enabled(s, New(r, id))
    ensures Inv(ExistsNew(s, r, id))
  {
    hide Lists, Ordered, Timely, Counted;
    var s' := ExistsNew(s, r, id);
    OneRequest(s, s', r, s'.requests[r], id, s'.nodes[id], 1);
    NotQueued(s, id);
    ToHead(s, s', id);
  }

  lemma NotQueued(s: State, id: Ptr)
    requires Indexed(s) && id !in s.nodes
    ensures id !in s.tree && Without(s.queue, id) == s.queue
  {
    ListsFacts(s.queue, s.tree);
    WithoutAbsent(s.queue, id);
  }

  lemma HeldIsAllocated(s: State, r: RequestId)
    requires Counted(s) && Holding(s, r)
    ensures s.requests[r].node in s.nodes && r !in s.retrying
  {
  }

  lemma FreeKeepsInv(s: State, r: RequestId)
    requires Inv(s) && Enabled(s, DoFree(r))
    ensures Inv(Free(s, r))
  {
    hide Lists, Ordered, Counted, Timely;
    var rq := s.requests[r];
    var id := rq.node;
    HeldIsAllocated(s, r);
    var n := Released(s.nodes[id], rq);
    var drop := rq.error == 0 && !n.present && n.count == 0 && rq.minUses == 1;
    var rq' := rq.(node := if drop then NULL else id, updated := true, updating := false);
    var s1 := s.(nodes := s.nodes[id := n], requests := s.requests[r := rq']);
    OneRequest(s, s1, r, rq', id, n, -1);
    SameOrder(s, s1);
    if drop {
      FreeKeepsCounted(s1, id);
      FreeKeepsOrder(s1, id);
    }
  }

  lemma FinishKeepsInv(s: State, p: ProcessId)
    requires Inv(s) && Enabled(s, FinishDelete(p))
    ensures Inv(DeleteFinish(s, p))
  {
    hide Lists, Ordered;
    var s1 := Unmark(s, p);
    UnmarkKeepsCounted(s, p);
    SameOrder(s, s1);
    if s1.nodes[s.deleters[p]].count == 0 {
      FreeKeepsCounted(s1, s.deleters[p]);
      FreeKeepsOrder(s1, s.deleters[p]);
    }
  }

  lemma BeginKeepsInv(s: State, p: ProcessId, id: Ptr)
    requires Inv(s) && Enabled(s, BeginDelete(p, id)) && Safe(s, BeginDelete(p, id))
    ensures Inv(DeleteBegin(s, p, id))
  {
    hide Lists, Ordered;
    if s.nodes[id].present {
      BeginKeepsCounted(s, p, id);
      SameOrder(s, DeleteBegin(s, p, id));
    } else {
      FreeKeepsCounted(s, id);
      FreeKeepsOrder(s, id);
    }
  }

  /** The sections that change one held node and one request, and leave the queue alone. */
  lemma HoldingKeepsInv(s: State, step: Step)
    requires Inv(s) && Enabled(s, step) && Safe(s, step)
    requires step.DoReopen? || step.DoSwitchBack? || step.DoUpdate?
      || step.DoLock? || step.DoReadCold? || step.DoReadStale?
    ensures Inv(After(s, step))
  {
    hide Lists, Ordered, Counted, Timely;
    HeldIsAllocated(s, step.r);
    var s' := After(s, step);
    var id := s.requests[step.r].node;
    var gone := step.DoReopen? || step.DoSwitchBack? || step.DoUpdate?;
    assert s'.nodes == s.nodes[id := s'.nodes[id]];
    assert s'.requests == s.requests[step.r := s'.requests[step.r]];
    OneRequest(s, s', step.r, s'.requests[step.r], id, s'.nodes[id], if gone then -1 else 0);
    SameOrder(s, s');
  }

  lemma AddKeepsInv(s: State, id: Ptr, key: Key, fsSize: int)
    requires Inv(s) && Enabled(s, DoAdd(id, key, fsSize)) && Safe(s, DoAdd(id, key, fsSize))
    ensures Inv(Add(s, id, key, fsSize))
  {
    hide Lists, Ordered, Timely, Counted, Absent;
    if id in s.nodes {
      MoveKeepsInv(s, id);
    } else {
      NotQueued(s, id);
      AddNewKeepsInv(s, Add(s, id, key, fsSize), id);
    }
  }

  lemma AddNewKeepsInv(s: State, s': State, id: Ptr)
    requires Inv(s) && id !in s.nodes && id in s'.nodes && GoesToHead(s, s', id)
    requires s' == s.(nodes := s.nodes[id := s'.nodes[id]], tree := s'.tree, queue := s'.queue, shCount := s'.shCount)
    requires s'.nodes[id].count == 0 && !s'.nodes[id].deleting
    ensures Inv(s')
  {
    hide Lists, Ordered, Timely;
    SameReferences(s, s');
    ToHead(s, s', id);
  }

  lemma ArriveKeepsInv(s: State, r: RequestId, rq: Request)
    requires Inv(s) && Enabled(s, Arrive(r, rq))
    ensures Inv(After(s, Arrive(r, rq)))
  {
    hide Lists, Ordered, Counted, Timely;
    ArriveKeepsCounted(s, r, rq);
    SameOrder(s, s.(requests := s.requests[r := rq]));
  }

  lemma NotYetUser(s: State, s': State, r: RequestId, rq: Request, x: Ptr)
    requires r !in s.requests && rq.node == NULL != x
    requires s'.requests == s.requests[r := rq] && s'.deleters == s.deleters
    ensures Users(s', x) == Users(s, x) && Deleters(s', x) == Deleters(s, x)
  {
    UsersSet(s, s', r, rq, x);
  }

  lemma ArriveKeepsCounted(s: State, r: RequestId, rq: Request)
    requires Counted(s) && NULL !in s.nodes && r !in s.requests && rq.node == NULL
    ensures Counted(s.(requests := s.requests[r := rq]))
  {
    hide Users, Deleters;
    var s' := s.(requests := s.requests[r := rq]);
    forall x | x in s'.nodes ensures Users(s', x) == Users(s, x) && Deleters(s', x) == Deleters(s, x) {
      NotYetUser(s, s', r, rq, x);
    }
  }

  lemma RetryKeepsInv(s: State, r: RequestId)
    requires Inv(s) && Enabled(s, NoMemory(r))
    ensures Inv(After(s, NoMemory(r)))
  {
    hide Lists, Ordered;
    SameReferences(s, After(s, NoMemory(r)));
    SameOrder(s, After(s, NoMemory(r)));
  }

  lemma IdleKeepsInv(s: State, step: Step)
    requires Inv(s) && Enabled(s, step) && (step.Tick? || step.GiveUp?)
    ensures Inv(After(s, step))
  {
    hide Lists, Ordered;
    SameReferences(s, After(s, step));
    SameOrder(s, After(s, step));
  }

  lemma PostponeKeepsInv(s: State, id: Ptr)
    requires Inv(s) && Enabled(s, DoPostpone(id)) && Safe(s, DoPostpone(id))
    ensures Inv(Postpone(s, id))
  {
    MoveKeepsInv(s, id);
  }

  lemma MoveKeepsInv(s: State, id: Ptr)
    requires Inv(s) && id in s.nodes
    ensures Inv(Postpone(s, id))
  {
    hide Lists, Ordered, Timely, Users, Deleters;
    SameReferences(s, Postpone(s, id));
    ToHead(s, Postpone(s, id), id);
  }

  lemma {:induction false} VictimIsQueued(nodes: map<Ptr, Node>, queue: seq<Ptr>, tries: nat)
    ensures ForcedVictim(nodes, queue, tries) == NULL || ForcedVictim(nodes, queue, tries) in queue
  {
    if queue != [] && tries > 0 {
      VictimIsQueued(nodes, queue[..|queue| - 1], tries - 1);
    }
  }

  lemma QueuedIsAllocated(s: State, id: Ptr)
    requires Indexed(s) && id in s.queue
    ensures id in s.nodes
  {
    ListsFacts(s.queue, s.tree);
  }

  lemma StepIsSafe(s: State, step: Step)
    requires Inv(s) && Enabled(s, step)
    ensures Safe(s, step)
  {
    hide Lists, Ordered, Timely, ForcedVictim;
    match step
    case BeginDelete(_, id) =>
      VictimIsQueued(s.nodes, s.queue, 20);
      QueuedIsAllocated(s, id);
    case DoPostpone(id) => QueuedIsAllocated(s, id);
    case _ =>
  }

  /** Every section of every process keeps the invariant. */
  lemma StepKeepsInv(s: State, step: Step)
    requires Inv(s) && Enabled(s, step) && Safe(s, step)
    ensures Inv(After(s, step))
  {
    hide Inv, Enabled, Safe;
    match step
    case Found(r, id) => FoundKeepsInv(s, r, id);
    case New(r, id) => NewKeepsInv(s, r, id);
    case DoFree(r) => FreeKeepsInv(s, r);
    case BeginDelete(p, id) => BeginKeepsInv(s, p, id);
    case FinishDelete(p) => FinishKeepsInv(s, p);
    case DoAdd(id, key, fsSize) => AddKeepsInv(s, id, key, fsSize);
    case DoPostpone(id) => PostponeKeepsInv(s, id);
    case Arrive(r, rq) => ArriveKeepsInv(s, r, rq);
    case NoMemory(r) => RetryKeepsInv(s, r);
    case Tick(_) => IdleKeepsInv(s, step);
    case GiveUp(_) => IdleKeepsInv(s, step);
    case _ => HoldingKeepsInv(s, step);
  }

  // ---------- whole runs ----------

  function Init(now: int, inactive: nat): State {
    State(map[], {}, [], 0, map[], {}, map[], now, inactive)
  }

  datatype Outcome = Reached(s: State) | NotARun | UseAfterFree

  /** What becomes of a state when the processes take these steps in this order. */
  function Run(s: State, steps: seq<Step>): Outcome
    decreases |steps|
  {
    if steps == [] then Reached(s)
    else if !Enabled(s, steps[0]) then NotARun
    else if !Safe(s, steps[0]) then UseAfterFree
    else Run(After(s, steps[0]), steps[1..])
  }

  /** In no interleaving is freed memory used, and the invariant holds whenever the mutex is free. */
  lemma {:induction false} RunsAreSafe(s: State, steps: seq<Step>)
    requires Inv(s)
    ensures Run(s, steps) != UseAfterFree
    ensures Run(s, steps).Reached? ==> Inv(Run(s, steps).s)
    decreases |steps|
  {
    hide Inv, Enabled, Safe, After;
    if steps != [] && Enabled(s, steps[0]) {
      StepIsSafe(s, steps[0]);
      StepKeepsInv(s, steps[0]);
      RunsAreSafe(After(s, steps[0]), steps[1..]);
    }
  }

  lemma RunsFromTheStart(now: int, inactive: nat, steps: seq<Step>)
    ensures Run(Init(now, inactive), steps) != UseAfterFree
    ensures Run(Init(now, inactive), steps).Reached? ==> Inv(Run(Init(now, inactive), steps).s)
  {
    RunsAreSafe(Init(now, inactive), steps);
  }

  /** A node is freed only when nobody but the process that frees it had a reference, and then nobody has. */
  lemma FreedByItsLastUser(s: State, step: Step, id: Ptr)
    requires Inv(s) && Enabled(s, step) && Safe(s, step)
    requires id in s.nodes && id !in After(s, step).nodes
    ensures step.DoFree? || step.BeginDelete? || step.FinishDelete?
    ensures Users(s, id) == (if step.DoFree? then {step.r} else {})
    ensures Deleters(s, id) == (if step.FinishDelete? then {step.p} else {})
    ensures Users(After(s, step), id) == {} && Deleters(After(s, step), id) == {}
  {
    StepKeepsInv(s, step);
    LastReference(s, step, id);
    Unreferenced(After(s, step), id);
  }

  lemma OnlyUser(s: State, r: RequestId)
    requires Counted(s) && Holding(s, r) && s.requests[r].node in s.nodes && s.nodes[s.requests[r].node].count == 1
    ensures Users(s, s.requests[r].node) == {r} && Deleters(s, s.requests[r].node) == {}
  {
    var id := s.requests[r].node;
    assert r in Users(s, id) && Users(s, id) == {r} + (Users(s, id) - {r});
  }

  lemma OnlyDeleter(s: State, p: ProcessId)
    requires Counted(s) && p in s.deleters && s.deleters[p] in s.nodes && s.nodes[s.deleters[p]].count == 1
    ensures Users(s, s.deleters[p]) == {} && Deleters(s, s.deleters[p]) == {p}
  {
    var id := s.deleters[p];
    assert p in Deleters(s, id) && Deleters(s, id) == {p} + (Deleters(s, id) - {p});
  }

  lemma NoReference(s: State, id: Ptr)
    requires Counted(s) && id in s.nodes && s.nodes[id].count == 0
    ensures Users(s, id) == {} && Deleters(s, id) == {}
  {
  }

  lemma LastReference(s: State, step: Step, id: Ptr)
    requires Inv(s) && Enabled(s, step) && Safe(s, step)
    requires id in s.nodes && id !in After(s, step).nodes
    ensures step.DoFree? || step.BeginDelete? || step.FinishDelete?
    ensures Users(s, id) == (if step.DoFree? then {step.r} else {})
    ensures Deleters(s, id) == (if step.FinishDelete? then {step.p} else {})
  {
    hide Lists, Ordered, Timely, Counted, Users, Deleters, Absent, Expired;
    match step
    case DoFree(r) => OnlyUser(s, r);
    case FinishDelete(p) => OnlyDeleter(s, p);
    case BeginDelete(_, _) => NoReference(s, id);
    case _ =>
  }

  /** When ngx_http_file_cache_expire stops at a tail that is not due, no node in the queue is due. */
  lemma NothingIsOverdue(s: State, t: int)
    requires Inv(s) && s.queue != [] && s.queue[|s.queue| - 1] in s.nodes
    requires s.nodes[s.queue[|s.queue| - 1]].expire > t
    ensures forall id :: id in s.nodes ==> s.nodes[id].expire > t
  {
    ListsFacts(s.queue, s.tree);
    forall id | id in s.nodes ensures s.nodes[id].expire > t {
      assert id in s.tree && id in s.queue;
      var i :| 0 <= i < |s.queue| && s.queue[i] == id;
    }
  }

  ghost predicate AllUsed(nodes: map<Ptr, Node>, queue: seq<Ptr>) {
    forall id :: id in queue ==> id in nodes && nodes[id].count != 0
  }

  /**
    Forced expiry takes the least recently used node without users, if fewer than 20 nodes in use
    are behind it in the queue.
   */
  lemma {:induction false} ForcedVictimIsOldest(nodes: map<Ptr, Node>, queue: seq<Ptr>, tries: nat)
      returns (front: seq<Ptr>, behind: seq<Ptr>)
    requires forall id :: id in queue ==> id in nodes && id != NULL
    ensures AllUsed(nodes, behind) && |behind| <= tries
    ensures var v := ForcedVictim(nodes, queue, tries);
      if v != NULL then queue == front + [v] + behind && v in nodes && nodes[v].count == 0 && |behind| < tries
      else queue == front + behind && (front == [] || |behind| == tries)
  {
    if queue == [] || tries == 0 {
      front, behind := queue, [];
    } else {
      var last, rest := queue[|queue| - 1], queue[..|queue| - 1];
      assert queue == rest + [last] && last in queue;
      if nodes[last].count == 0 {
        front, behind := rest, [];
      } else {
        assert forall id :: id in rest ==> id in queue;
        front, behind := ForcedVictimIsOldest(nodes, rest, tries - 1);
        behind := behind + [last];
      }
    }
  }

  // ---------- what lookups answer ----------

  /** The steps that change what a node says of its file: an update, an error, the loader's file, a renewal. */
  predicate Touches(s: State, step: Step, id: Ptr)
    requires Enabled(s, step) && Safe(s, step) && id in s.nodes
  {
    match step
    case DoUpdate(r, _, _, _) => s.requests[r].node == id
    case DoReadCold(r, _) => s.requests[r].node == id
    case DoFree(r) => s.requests[r].node == id && s.requests[r].error != 0
    case Found(_, x) => x == id && s.nodes[id].error != 0 && s.nodes[id].validSec < s.now
    case _ => false
  }

  /** The node is neither touched nor freed. */
  predicate Leaves(s: State, step: Step, id: Ptr) {
    && Enabled(s, step) && Safe(s, step) && id in s.nodes && !Touches(s, step, id) && id in After(s, step).nodes
  }

  predicate SameFile(m: Node, n: Node) {
    && m.key == n.key && m.error == n.error && m.validSec == n.validSec && m.present == n.present
    && m.uniq == n.uniq && m.bodyStart == n.bodyStart && m.fsSize == n.fsSize
  }

  /** A request that comes to the node for the first time uses it once more. */
  predicate Comes(s: State, step: Step, id: Ptr) {
    step.Found? && step.id == id && step.r in s.requests && s.requests[step.r].node == NULL
  }

  lemma StepLeaves(s: State, step: Step, id: Ptr)
    requires Leaves(s, step, id)
    ensures SameFile(s.nodes[id], After(s, step).nodes[id])
    ensures After(s, step).nodes[id].uses == s.nodes[id].uses + if Comes(s, step, id) then 1 else 0
  {
    hide Absent, Expired, ForcedVictim, TreeAllocated;
  }

  /** All steps leave the node alone. */
  predicate Untouched(s: State, steps: seq<Step>, id: Ptr)
    decreases |steps|
  {
    steps == [] || (Leaves(s, steps[0], id) && Untouched(After(s, steps[0]), steps[1..], id))
  }

  /** How many requests come to the node in a run. */
  function Visits(s: State, steps: seq<Step>, id: Ptr): nat
    requires Untouched(s, steps, id)
    decreases |steps|
  {
    if steps == [] then 0
    else (if Comes(s, steps[0], id) then 1 else 0) + Visits(After(s, steps[0]), steps[1..], id)
  }

  lemma {:induction false} FileStays(s: State, steps: seq<Step>, id: Ptr)
    requires id in s.nodes && Untouched(s, steps, id)
    ensures Run(s, steps).Reached? && id in Run(s, steps).s.nodes
    ensures SameFile(s.nodes[id], Run(s, steps).s.nodes[id])
    ensures Run(s, steps).s.nodes[id].uses == s.nodes[id].uses + Visits(s, steps, id)
    decreases |steps|
  {
    hide Enabled, Safe, After, Touches, Comes, SameFile;
    if steps == [] {
      SameFileAs(s.nodes[id]);
    } else {
      StepLeaves(s, steps[0], id);
      FileStays(After(s, steps[0]), steps[1..], id);
      SameFileMore(s.nodes[id], After(s, steps[0]).nodes[id], Run(s, steps).s.nodes[id]);
    }
  }

  lemma SameFileAs(n: Node)
    ensures SameFile(n, n)
  {
  }

  lemma SameFileMore(l: Node, m: Node, n: Node)
    requires SameFile(l, m) && SameFile(m, n)
    ensures SameFile(l, n)
  {
  }

  /** What a lookup that finds a node tells the request, by what the node says of its file. */
  ghost predicate Says(n: Node, uses: int, before: Request, after: Request, now: int) {
    if n.error == 0 && n.present then
      && after.reply == Told(OK) && after.present && after.error == 0 && after.uniq == n.uniq
      && after.bodyStart == (if n.bodyStart != 0 then n.bodyStart else before.bodyStart)
    else if n.error == 0 then
      && after.reply == Told(if uses >= before.minUses then OK else AGAIN) && after.error == 0
      && (uses >= before.minUses ==> !after.present)
    else if now <= n.validSec then after.reply == Told(OK) && after.error == n.error
    else after.reply == Told(DECLINED) && after.error == 0
  }

  lemma LookupSays(s: State, r: RequestId, id: Ptr)
    requires Enabled(s, Found(r, id)) && Safe(s, Found(r, id))
    ensures var s' := After(s, Found(r, id));
      && r in s'.requests && s'.requests[r].node == id && id in s'.nodes
      && Says(s.nodes[id], s.nodes[id].uses + (if s.requests[r].node == NULL then 1 else 0), s.requests[r],
              s'.requests[r], s.now)
    ensures var n := After(s, Found(r, id)).nodes[id];
      s.nodes[id].error != 0 && s.nodes[id].validSec < s.now ==>
        n.error == 0 && !n.present && n.validSec == 0 && n.uniq == 0 && n.bodyStart == 0 && n.fsSize == 0
    ensures After(s, Found(r, id)).nodes[id].expire == s.now + s.inactive
    ensures After(s, Found(r, id)).queue == [id] + Without(s.queue, id)
  {
  }

  /**
    The answer of a lookup, whatever the processes did since the node said what it says, as long as they
    left it alone: a cached file is served with its identity; one that is not there yet once it has been
    asked for often enough; a cached error until its time is over, and then the node is made anew.
   */
  lemma AnswerAfterRun(s: State, steps: seq<Step>, r: RequestId, id: Ptr)
    requires id in s.nodes && Untouched(s, steps, id)
    requires Run(s, steps).Reached? && Enabled(Run(s, steps).s, Found(r, id)) && Safe(Run(s, steps).s, Found(r, id))
    ensures var s1 := Run(s, steps).s;
      var comes := if s1.requests[r].node == NULL then 1 else 0;
      && r in s1.requests && r in After(s1, Found(r, id)).requests
      && Says(s.nodes[id], s.nodes[id].uses + Visits(s, steps, id) + comes, s1.requests[r],
              After(s1, Found(r, id)).requests[r], s1.now)
  {
    hide Run, Untouched, Visits, Enabled, Safe, After;
    FileStays(s, steps, id);
    FoundRequest(Run(s, steps).s, r, id);
    LookupSays(Run(s, steps).s, r, id);
  }

  lemma HolderIsKnown(s: State, r: RequestId, uniq: int, fsSize: int)
    requires Enabled(s, DoUpdate(r, true, uniq, fsSize))
    ensures r in s.requests
  {
  }

  lemma FoundRequest(s: State, r: RequestId, id: Ptr)
    requires Enabled(s, Found(r, id))
    ensures r in s.requests
  {
  }

  /** A request that has fetched the file leaves its identity and where the body starts. */
  lemma UpdateStores(s: State, r: RequestId, ok: bool, uniq: int, fsSize: int)
    requires Enabled(s, DoUpdate(r, ok, uniq, fsSize)) && Safe(s, DoUpdate(r, ok, uniq, fsSize))
    ensures var id := s.requests[r].node;
      && id in After(s, DoUpdate(r, ok, uniq, fsSize)).nodes
      && var n := After(s, DoUpdate(r, ok, uniq, fsSize)).nodes[id];
         && n.uniq == uniq && n.bodyStart == s.requests[r].bodyStart && n.fsSize == fsSize && !n.updating
         && (n.present <==> ok || s.nodes[id].present)
         && n.error == s.nodes[id].error && n.key == s.nodes[id].key && n.uses == s.nodes[id].uses
  {
  }

  /** So a file that was fetched without an error is served from then on. */
  lemma FetchedIsServed(s: State, r: RequestId, uniq: int, fsSize: int, steps: seq<Step>, r': RequestId)
    requires Enabled(s, DoUpdate(r, true, uniq, fsSize)) && Safe(s, DoUpdate(r, true, uniq, fsSize))
    requires s.nodes[s.requests[r].node].error == 0
    requires var id, s1 := s.requests[r].node, After(s, DoUpdate(r, true, uniq, fsSize));
      && Untouched(s1, steps, id) && Run(s1, steps).Reached?
      && Enabled(Run(s1, steps).s, Found(r', id)) && Safe(Run(s1, steps).s, Found(r', id))
    ensures var id, s1 := s.requests[r].node, After(s, DoUpdate(r, true, uniq, fsSize));
      var s2 := Run(s1, steps).s;
      && r' in s2.requests && r' in After(s2, Found(r', id)).requests
      && var rq := After(s2, Found(r', id)).requests[r'];
         && rq.reply == Told(OK) && rq.present && rq.uniq == uniq && rq.error == 0
         && (s.requests[r].bodyStart != 0 ==> rq.bodyStart == s.requests[r].bodyStart)
  {
    hide Run, Untouched, Enabled, Safe, After;
    HolderIsKnown(s, r, uniq, fsSize);
    UpdateStores(s, r, true, uniq, fsSize);
    AnswerAfterRun(After(s, DoUpdate(r, true, uniq, fsSize)), steps, r', s.requests[r].node);
  }

  /** A request that ends with an error leaves it, for as long as it says, and forgets its own claim to update. */
  lemma FreeStores(s: State, r: RequestId)
    requires Enabled(s, DoFree(r)) && Safe(s, DoFree(r)) && s.requests[r].error != 0
    ensures var id, rq := s.requests[r].node, s.requests[r];
      && id in After(s, DoFree(r)).nodes
      && var n := After(s, DoFree(r)).nodes[id];
         && n.error == rq.error && n.validSec == (if rq.validSec != 0 then rq.validSec else s.nodes[id].validSec)
         && n.updating == (s.nodes[id].updating && !(rq.updating && s.nodes[id].lockTime == rq.lockTime))
         && n.present == s.nodes[id].present && n.uniq == s.nodes[id].uniq
  {
  }

  /** A key that is not known is declined, and its node has been asked for once. */
  lemma NewIsDeclined(s: State, r: RequestId, id: Ptr)
    requires Enabled(s, New(r, id)) && Safe(s, New(r, id))
    ensures var s' := After(s, New(r, id));
      && r in s'.requests && s'.requests[r].reply == Told(DECLINED)
      && s'.requests[r].node == id && s'.requests[r].error == 0
      && id in s'.nodes && s'.nodes[id].key == s.requests[r].key && s'.nodes[id].uses == 1 && s'.nodes[id].error == 0
      && !s'.nodes[id].present && s'.nodes[id].expire == s.now + s.inactive && s'.queue == [id] + s.queue
  {
  }

  /** Until a new key has been asked for as often as a request demands, the request is put off. */
  lemma SoughtOftenEnough(s: State, r: RequestId, id: Ptr, steps: seq<Step>, r': RequestId)
    requires Enabled(s, New(r, id)) && Safe(s, New(r, id))
    requires var s1 := After(s, New(r, id));
      && Untouched(s1, steps, id) && Run(s1, steps).Reached?
      && Enabled(Run(s1, steps).s, Found(r', id)) && Safe(Run(s1, steps).s, Found(r', id))
      && r' in Run(s1, steps).s.requests && Run(s1, steps).s.requests[r'].node == NULL
    ensures var s1 := After(s, New(r, id));
      var s2 := Run(s1, steps).s;
      && r' in After(s2, Found(r', id)).requests
      && After(s2, Found(r', id)).requests[r'].reply
           == Told(if 2 + Visits(s1, steps, id) >= s2.requests[r'].minUses then OK else AGAIN)
  {
    hide Run, Untouched, Visits, Enabled, Safe, After;
    NewIsDeclined(s, r, id);
    AnswerAfterRun(After(s, New(r, id)), steps, r', id);
  }

  /** A file found while the loader is at work, and one that the loader has found. */
  lemma LoaderStores(s: State, r: RequestId, id: Ptr, key: Key, fsSize: int)
    ensures Enabled(s, DoReadCold(r, fsSize)) && Safe(s, DoReadCold(r, fsSize))
            && !s.nodes[s.requests[r].node].present ==>
      var x := s.requests[r].node;
      && x in After(s, DoReadCold(r, fsSize)).nodes
      && var n := After(s, DoReadCold(r, fsSize)).nodes[x];
         n.present && n.uses == 1 && n.uniq == s.requests[r].uniq && n.bodyStart == s.requests[r].bodyStart
    ensures Enabled(s, DoAdd(id, key, fsSize)) && Safe(s, DoAdd(id, key, fsSize)) && id !in s.tree ==>
      && id in After(s, DoAdd(id, key, fsSize)).nodes
      && var n := After(s, DoAdd(id, key, fsSize)).nodes[id];
         n.present && n.uses == 1 && n.count == 0 && n.error == 0 && n.key == key && n.fsSize == fsSize
         && n.expire == s.now + s.inactive
  {
  }

  /** The right to fill a node goes to one request at a time, until its time is over. */
  lemma LockIsOne(s: State, r: RequestId, msec: int, age: int)
    requires Enabled(s, DoLock(r, msec, age)) && Safe(s, DoLock(r, msec, age))
    ensures var id, s' := s.requests[r].node, After(s, DoLock(r, msec, age));
      if s.nodes[id].updating && msec < s.nodes[id].lockTime then s' == s
      else
        && id in s'.nodes && r in s'.requests
        && s'.nodes[id].updating && s'.nodes[id].lockTime == msec + age
        && s'.requests[r].updating && s'.requests[r].lockTime == msec + age
  {
  }

  /** A request that turns to a variant, and one that turns back, look for another key with no node in hand. */
  lemma TurnsTo(s: State, r: RequestId)
    ensures Enabled(s, DoReopen(r)) && Safe(s, DoReopen(r)) ==>
      && r in After(s, DoReopen(r)).requests
      && var rq := After(s, DoReopen(r)).requests[r];
         rq.node == NULL && rq.key == s.requests[r].variant && rq.secondary
    ensures Enabled(s, DoSwitchBack(r)) && Safe(s, DoSwitchBack(r)) ==>
      && r in After(s, DoSwitchBack(r)).requests
      && var rq := After(s, DoSwitchBack(r)).requests[r]; rq.node == NULL && rq.key == s.requests[r].main
  {
  }

  /** When a node is freed: by the last request if it has nothing to say, or by a deletion nobody came between. */
  lemma FreedExactly(s: State, step: Step, id: Ptr)
    requires Enabled(s, step) && Safe(s, step) && id in s.nodes
    ensures id !in After(s, step).nodes <==>
      match step
      case DoFree(r) =>
        && s.requests[r].node == id && s.requests[r].error == 0 && s.requests[r].minUses == 1
        && !s.nodes[id].present && s.nodes[id].count == 1
      case BeginDelete(_, x) => x == id && !s.nodes[id].present
      case FinishDelete(p) => s.deleters[p] == id && s.nodes[id].count == 1
      case _ => false
  {
    hide Absent, Expired, ForcedVictim, TreeAllocated;
  }

  /** Expiry puts a node that is in use back to the head, with a full span of time. */
  lemma PostponeMoves(s: State, id: Ptr)
    requires Enabled(s, DoPostpone(id)) && Safe(s, DoPostpone(id))
    ensures var s' := After(s, DoPostpone(id));
      id in s'.nodes && s'.nodes[id].expire == s.now + s.inactive && s'.queue == [id] + Without(s.queue, id)
  {
  }

  /** A deletion of a cached file marks the node and counts itself, and a node is due once its time has come. */
  lemma BeginMarks(s: State, p: ProcessId, id: Ptr)
    requires Enabled(s, BeginDelete(p, id)) && Safe(s, BeginDelete(p, id)) && s.nodes[id].present
    ensures var s' := After(s, BeginDelete(p, id));
      && id in s'.nodes && s'.nodes[id].deleting && s'.nodes[id].count == 1
      && p in s'.deleters && s'.deleters[p] == id
    ensures s.nodes[id].expire <= s.now || id == ForcedVictim(s.nodes, s.queue, 20)
  {
  }
}
