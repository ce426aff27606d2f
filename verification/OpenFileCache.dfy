/**
  The cache of open descriptors of src/core/ngx_open_file_cache.c, without vnode events.

  Entries live in an explicit heap, `files`, from which ngx_free removes them; reading a freed
  entry or closing a descriptor that is not open is a failed precondition.  `Valid` ties together
  the lookup tree, the LRU queue, the entry counters, the outstanding request cleanups and the
  descriptors the process has open.
 */
module OpenFileCache {
  import opened LruQueue

  /** A path; the cache only ever compares paths for equality. */
  type Name = int

  const NO_FD := -1

  datatype Rc = OK | ERROR

  /** What fstat() or stat() reports. */
  datatype Info = Info(mtime: int, size: int, isFile: bool, isLink: bool, isExec: bool)
  datatype Stat = Stat(uniq: int, isDir: bool, info: Info)

  /** ngx_open_file_info_t: what the caller asks for and what it is told. */
  datatype OpenInfo = OpenInfo(
    fd: int, uniq: int, err: int, isDir: bool, isDirectio: bool, info: Info,
    valid: int, minUses: int, symlinks: int, directio: int, testDir: bool, errors: bool)

  /** ngx_cached_open_file_t */
  datatype File = File(
    name: Name, fd: int, uniq: int, err: int, isDir: bool, isDirectio: bool, info: Info,
    uses: int, count: int, close: bool, accessed: int, created: int, symlinks: int)

  /** The answers of the operating system during one call. */
  datatype StatAnswer = StatFailed(errno: int) | Stated(stat: Stat)
  datatype OpenAnswer = OpenFailed(errno: int) | FstatFailed(fd: int) | Opened(fd: int, stat: Stat)
  datatype System = System(stat: StatAnswer, open: OpenAnswer, directioOn: bool)

  // ---------- the invariant ----------

  type Files = map<Ptr, File>

  /** The tree finds exactly the members, each under its own name. */
  ghost predicate Indexed(files: Files, tree: map<Name, Ptr>, members: set<Ptr>) {
    && (forall id :: id in members ==> id in files && files[id].name in tree && tree[files[id].name] == id)
    && (forall n :: n in tree ==> tree[n] in members && tree[n] in files && files[tree[n]].name == n)
    && |tree| == |members|
  }

  /** Each open descriptor belongs to exactly one entry; those in `loose` to the call in progress. */
  ghost predicate Descriptors(files: Files, owner: map<int, Ptr>, fds: set<int>, loose: set<int>) {
    && (forall id :: id in files && files[id].fd != NO_FD ==> files[id].fd in owner && owner[files[id].fd] == id)
    && (forall fd :: fd in owner ==> fd != NO_FD && owner[fd] in files && files[owner[fd]].fd == fd)
    && owner.Keys !! loose && fds == owner.Keys + loose && NO_FD !in fds
  }

  /**
    An entry's count is the number of cleanups that refer to it.  A cached error or directory has
    neither users nor a descriptor; an entry out of the tree is kept only for its users.
   */
  ghost predicate FileOk(f: File, isMember: bool, users: nat) {
    && f.count == users
    && (f.err != 0 || f.isDir ==> f.count == 0 && f.fd == NO_FD)
    && (f.count > 0 ==> f.fd != NO_FD)
    && (isMember ==> f.err == 0 ==> !f.close)
    && (!isMember ==> f.close && f.err == 0 && !f.isDir)
  }

  /** `idle` are entries that have just lost their last user and await ngx_close_cached_file. */
  ghost predicate Counted(files: Files, members: set<Ptr>, cleanups: multiset<Ptr>, idle: set<Ptr>) {
    && (forall id :: id in files ==> FileOk(files[id], id in members, cleanups[id]))
    && (forall id :: id in files && id !in members && id !in idle ==> files[id].count > 0)
    && (forall id :: id in cleanups ==> id in files)
  }

  // ---------- expiry ----------

  /** What dropping an entry from the tree does: it lives on only while it has users. */
  function Drop(files: Files, id: Ptr): Files {
    if id !in files then files
    else if files[id].count > 0 then files[id := files[id].(close := true)]
    else files - {id}
  }

  /** Dropping a tail of the queue, last entry first. */
  function DropAll(files: Files, tail: seq<Ptr>): Files {
    if tail == [] then files else Drop(DropAll(files, tail[1..]), tail[0])
  }

  lemma DropOneMore(files: Files, queue: seq<Ptr>, k: nat)
    requires k < |queue|
    ensures DropAll(files, queue[k..]) == Drop(DropAll(files, queue[k + 1..]), queue[k])
    ensures queue[..k] == queue[..k + 1][..k]
  {
    assert queue[k..][1..] == queue[k + 1..];
  }

  lemma {:induction false} DropAllKeeps(files: Files, tail: seq<Ptr>, x: Ptr)
    requires x !in tail
    ensures x in DropAll(files, tail) <==> x in files
    ensures x in files ==> DropAll(files, tail)[x] == files[x]
  {
    if tail != [] {
      DropAllKeeps(files, tail[1..], x);
    }
  }

  /** Dropping entries neither frees nor closes one that has users. */
  lemma {:induction false} DropAllKeepsUsed(files: Files, tail: seq<Ptr>, x: Ptr)
    requires x in files && files[x].count > 0
    ensures x in DropAll(files, tail)
    ensures DropAll(files, tail)[x] == files[x].(close := DropAll(files, tail)[x].close)
  {
    if tail != [] {
      DropAllKeepsUsed(files, tail[1..], x);
    }
  }

  /** What the end of one request does to the entry it used. */
  function Release(files: Files, id: Ptr, isMember: bool, minUses: int, now: int): Files
    requires id in files
  {
    var f := files[id].(count := files[id].count - 1);
    if isMember then
      files[id := f.(accessed := now, fd := if f.uses < minUses && f.count == 0 then NO_FD else f.fd)]
    else if f.count > 0 then files[id := f]
    else files - {id}
  }

  /**
    Entries with users stay allocated and keep their users and their descriptors, but for the
    descriptors in `lost`, which no entry owns any more and which stay open.
   */
  ghost predicate KeepsUsed(before: Files, after: Files, lost: set<int>) {
    forall x :: x in before && before[x].count > 0 ==>
      && x in after && after[x].count >= before[x].count
      && (after[x].fd == before[x].fd || before[x].fd in lost)
  }

  lemma DropAllIsKind(files: Files, tail: seq<Ptr>)
    ensures KeepsUsed(files, DropAll(files, tail), {})
  {
    forall x | x in files && files[x].count > 0
      ensures x in DropAll(files, tail) && DropAll(files, tail)[x].fd == files[x].fd
              && DropAll(files, tail)[x].count >= files[x].count
    {
      DropAllKeepsUsed(files, tail, x);
    }
  }

  // ---------- asking the operating system ----------

  function WithStat(of: OpenInfo, st: Stat): OpenInfo {
    of.(uniq := st.uniq, isDir := st.isDir, info := st.info)
  }

  /** ngx_open_and_stat_file, as a function of the system's answers */
  function OpenStat(of: OpenInfo, sys: System): (Rc, OpenInfo) {
    if (of.fd != NO_FD || of.testDir) && sys.stat.StatFailed? then
      (ERROR, of.(fd := NO_FD, err := sys.stat.errno))
    else if of.fd != NO_FD && sys.stat.stat.uniq == of.uniq then
      (OK, WithStat(of, sys.stat.stat))
    else if of.fd == NO_FD && of.testDir && sys.stat.stat.isDir then
      (OK, WithStat(of, sys.stat.stat))
    else match sys.open
      case OpenFailed(errno) => (ERROR, of.(fd := NO_FD, err := errno))
      case FstatFailed(_) => (ERROR, of.(fd := NO_FD))
      case Opened(fd, st) =>
        var of' := WithStat(of, st);
        if st.isDir then (OK, of'.(fd := NO_FD))
        else (OK, of'.(fd := fd, isDirectio := of.isDirectio || (of.directio <= st.info.size && sys.directioOn)))
  }

  /** The answer is what the system has said last: fstat() of a new descriptor, or stat() alone. */
  lemma AnswerIsTheSystems(of: OpenInfo, sys: System)
    ensures var (rc, r) := OpenStat(of, sys);
      var asked := of.fd != NO_FD || of.testDir;
      var same := sys.stat.Stated? &&
        if of.fd != NO_FD then sys.stat.stat.uniq == of.uniq else of.testDir && sys.stat.stat.isDir;
      && (asked && sys.stat.StatFailed? ==> rc == ERROR && r.err == sys.stat.errno && r.fd == NO_FD)
      && (same ==> rc == OK && r.fd == of.fd && Tells(r, sys.stat.stat) && r.isDirectio == of.isDirectio)
      && (!same && !(asked && sys.stat.StatFailed?) ==>
            match sys.open
            case OpenFailed(errno) => rc == ERROR && r.err == errno && r.fd == NO_FD
            case FstatFailed(_) => rc == ERROR && r.err == of.err && r.fd == NO_FD
            case Opened(fd, st) =>
              && rc == OK && Tells(r, st) && r.fd == (if st.isDir then NO_FD else fd)
              && (r.isDirectio <==> of.isDirectio || (!st.isDir && of.directio <= st.info.size && sys.directioOn)))
  {
  }

  predicate Tells(of: OpenInfo, st: Stat) {
    of.uniq == st.uniq && of.isDir == st.isDir && of.info == st.info
  }

  /** Whether that call leaves a new descriptor open. */
  predicate NewFd(of: OpenInfo, sys: System) {
    var (rc, of') := OpenStat(of, sys);
    rc == OK && of'.fd != NO_FD && !(of.fd != NO_FD && sys.stat.stat.uniq == of.uniq)
  }

  /** The kernel hands out descriptors that are not open yet. */
  predicate Honest(sys: System, fds: set<int>) {
    && (sys.open.Opened? ==> sys.open.fd != NO_FD && sys.open.fd !in fds)
    && (sys.open.FstatFailed? ==> sys.open.fd != NO_FD && sys.open.fd !in fds)
  }

  /** The file behind an open descriptor keeps its identity to itself, and stays a file. */
  predicate Kept(sys: System, uniq: int) {
    sys.stat.Stated? && sys.stat.stat.uniq == uniq ==> !sys.stat.stat.isDir
  }

  /** Between stat() and open() the path changes from another file back to the one with `uniq`. */
  predicate Raced(sys: System, uniq: int) {
    && sys.stat.Stated? && sys.stat.stat.uniq != uniq
    && sys.open.Opened? && !sys.open.stat.isDir && sys.open.stat.uniq == uniq
  }

  /** The descriptor that an entry loses when its retest races with a change of the path. */
  function LostTo(f: File, sys: System): set<int> {
    if f.fd != NO_FD && Raced(sys, f.uniq) then {f.fd} else {}
  }

  /**
    A retest that finds the identity unchanged keeps the entry's descriptor exactly if there was no
    race: there fstat() finds the old identity again, so that the source takes the file for
    unchanged, although it has just opened it anew.
   */
  lemma UnchangedKeepsDescriptor(of: OpenInfo, sys: System)
    requires of.fd != NO_FD && of.err == 0
    requires sys.open.Opened? ==> sys.open.fd != NO_FD && sys.open.fd != of.fd
    requires OpenStat(of, sys).0 == OK && OpenStat(of, sys).1.uniq == of.uniq && !OpenStat(of, sys).1.isDir
    ensures OpenStat(of, sys).1.fd == of.fd <==> !Raced(sys, of.uniq)
  {
  }

  /** If the system breaks that, and only then, an answer is both a directory and a descriptor. */
  lemma NeverBoth(of: OpenInfo, sys: System)
    requires of.fd != NO_FD && !of.isDir
    ensures Kept(sys, of.uniq) <==> !(OpenStat(of, sys).1.isDir && OpenStat(of, sys).1.fd != NO_FD)
  {
  }

  /** Only `name` may have got a new entry; the other names keep theirs or are dropped. */
  ghost predicate Spares(before: map<Name, Ptr>, after: map<Name, Ptr>, name: Name) {
    forall n :: n in after && n != name ==> n in before && after[n] == before[n]
  }

  lemma SparesLess(tree: map<Name, Ptr>, name: Name)
    ensures Spares(tree, tree - {name}, name) && Spares(tree, tree, name)
  {
  }

  lemma SparesMore(t0: map<Name, Ptr>, t1: map<Name, Ptr>, t2: map<Name, Ptr>, name: Name)
    requires Spares(t0, t1, name) && Spares(t1, t2, name)
    ensures Spares(t0, t2, name)
  {
  }

  lemma KeepsUsedSet(files: Files, id: Ptr, f: File)
    requires id in files && f.count >= files[id].count && (files[id].count > 0 ==> f.fd == files[id].fd)
    ensures KeepsUsed(files, files[id := f], {}) && KeepsUsed(files, files, {})
  {
  }

  lemma KeepsUsedAdd(files: Files, id: Ptr, f: File)
    requires id !in files
    ensures KeepsUsed(files, files[id := f], {})
  {
  }

  lemma SparesAdd(tree: map<Name, Ptr>, name: Name, p: Ptr)
    ensures Spares(tree, tree[name := p], name)
  {
  }

  lemma KeepsUsedMore(fs0: Files, fs1: Files, fs2: Files, lost: set<int>)
    requires KeepsUsed(fs0, fs1, {}) && KeepsUsed(fs1, fs2, lost)
    ensures KeepsUsed(fs0, fs2, lost)
  {
  }

  lemma KeepsUsedLost(files: Files, id: Ptr, f: File, lost: set<int>)
    requires id in files && f.count >= files[id].count && files[id].fd in lost
    ensures KeepsUsed(files, files[id := f], lost)
  {
  }

  lemma KeepsUsedLess(before: Files, after: Files, lost: set<int>)
    requires KeepsUsed(before, after, {})
    ensures KeepsUsed(before, after, lost)
  {
  }

  lemma KeepsUsedDrop(files: Files, id: Ptr)
    ensures KeepsUsed(files, Drop(files, id), {})
  {
  }

  lemma StatFacts(of: OpenInfo, sys: System)
    requires of.err == 0 && !of.isDir
    requires of.fd != NO_FD ==> Kept(sys, of.uniq)
    requires sys.open.Opened? ==> sys.open.fd != NO_FD
    ensures var (rc, of') := OpenStat(of, sys);
      && (rc == OK ==> of'.err == 0 && (of'.isDir <==> of'.fd == NO_FD))
      && (rc != OK ==> of'.fd == NO_FD && !of'.isDir)
      && (NewFd(of, sys) ==> of'.fd != NO_FD && sys.open.Opened? && of'.fd == sys.open.fd)
      && (of.fd != NO_FD ==> (NewFd(of, sys) && of'.uniq == of.uniq <==> Raced(sys, of.uniq)))
      && (!NewFd(of, sys) && of'.fd != NO_FD ==> of'.fd == of.fd && of'.uniq == of.uniq)
      && of'.errors == of.errors
  {
  }

  /** A cached answer that ngx_open_cached_file returns without asking the system. */
  predicate Fresh(f: File, of: OpenInfo, now: int) {
    && !(f.fd == NO_FD && f.err == 0 && !f.isDir)
    && (of.uniq == 0 || of.uniq == f.uniq)
    && now - f.created < of.valid
    && of.symlinks == f.symlinks
  }

  /** What a fresh entry answers. */
  function FromCache(f: File, of: OpenInfo): OpenInfo {
    if f.err == 0 then
      of.(fd := f.fd, uniq := f.uniq, info := f.info, isDir := f.isDir, isDirectio := f.isDirectio)
    else of.(err := f.err)
  }

  /** An answer that cannot be used: an error that the caller does not want cached. */
  predicate Unusable(rc: Rc, of: OpenInfo) {
    rc != OK && (of.err == 0 || !of.errors)
  }

  /** The entry was closed for want of use. */
  predicate Closed(f: File) {
    f.fd == NO_FD && f.err == 0 && !f.isDir
  }

  /** What the system is asked for an entry that does not answer by itself. */
  function Question(f: File, of: OpenInfo): OpenInfo {
    if Closed(f) then of else of.(fd := f.fd, uniq := f.uniq, testDir := of.testDir || f.isDir)
  }

  /** What the caller is told then: an unchanged file keeps the mode its descriptor is in. */
  function Reply(f: File, of: OpenInfo): OpenInfo {
    if f.fd != NO_FD && of.err == 0 && !of.isDir && of.uniq == f.uniq then of.(isDirectio := f.isDirectio) else of
  }

  /** Whether a usable answer differs from the entry, so that the entry cannot simply take it. */
  predicate Changed(f: File, of: OpenInfo) {
    f.err == 0 && !f.isDir && (of.isDir || of.err != 0 || of.uniq != f.uniq)
  }

  /** Whether the answer gets an entry of its own, for the sake of those who use the old one. */
  predicate Succeeded(f: File, of: OpenInfo) {
    Changed(f, of) && f.count > 0
  }

  // ---------- how the invariant moves ----------

  /** Rewriting an entry without touching its name. */
  lemma IndexedSet(files: Files, tree: map<Name, Ptr>, members: set<Ptr>, id: Ptr, f: File)
    requires Indexed(files, tree, members) && id in files && f.name == files[id].name
    ensures Indexed(files[id := f], tree, members)
  {
  }

  /** ngx_rbtree_delete */
  lemma IndexedDrop(files: Files, tree: map<Name, Ptr>, members: set<Ptr>, id: Ptr)
    requires Indexed(files, tree, members) && id in members
    ensures id in files && Indexed(files, tree - {files[id].name}, members - {id})
    ensures |tree - {files[id].name}| == |tree| - 1
  {
    var n := files[id].name;
    assert tree == (tree - {n})[n := id];
  }

  lemma IndexedFree(files: Files, tree: map<Name, Ptr>, members: set<Ptr>, id: Ptr)
    requires Indexed(files, tree, members) && id !in members
    ensures Indexed(files - {id}, tree, members)
  {
  }

  /** ngx_rbtree_insert of a new entry under a name that is not in the tree */
  lemma IndexedAdd(files: Files, tree: map<Name, Ptr>, members: set<Ptr>, id: Ptr, f: File)
    requires Indexed(files, tree, members) && id !in files && f.name !in tree
    ensures Indexed(files[id := f], tree[f.name := id], members + {id})
    ensures |tree[f.name := id]| == |tree| + 1
  {
    assert id !in members;
  }

  /** ngx_close_file on an entry's descriptor */
  lemma DescriptorsClose(files: Files, owner: map<int, Ptr>, fds: set<int>, loose: set<int>, id: Ptr, f: File)
    requires Descriptors(files, owner, fds, loose) && id in files && files[id].fd != NO_FD && f.fd == NO_FD
    ensures var fd := files[id].fd;
            fd in fds && Descriptors(files[id := f], owner - {fd}, fds - {fd}, loose)
  {
  }

  lemma DescriptorsSet(files: Files, owner: map<int, Ptr>, fds: set<int>, loose: set<int>, id: Ptr, f: File)
    requires Descriptors(files, owner, fds, loose) && id in files && files[id].fd == f.fd
    ensures Descriptors(files[id := f], owner, fds, loose)
  {
  }

  lemma DescriptorsFree(files: Files, owner: map<int, Ptr>, fds: set<int>, loose: set<int>, id: Ptr)
    requires Descriptors(files, owner, fds, loose) && id in files && files[id].fd == NO_FD
    ensures Descriptors(files - {id}, owner, fds, loose)
  {
  }

  lemma CountedSet(files: Files, members: set<Ptr>, cleanups: multiset<Ptr>, idle: set<Ptr>, id: Ptr, f: File)
    requires Counted(files, members, cleanups, idle) && id in files
    requires FileOk(f, id in members, cleanups[id])
    ensures Counted(files[id := f], members, cleanups, idle)
    ensures id in members || f.count > 0 ==> Counted(files[id := f], members, cleanups, idle - {id})
  {
  }

  lemma CountedFree(files: Files, members: set<Ptr>, cleanups: multiset<Ptr>, idle: set<Ptr>, id: Ptr)
    requires Counted(files, members, cleanups, idle) && id in files && files[id].count == 0
    ensures Counted(files - {id}, members, cleanups, idle - {id})
  {
    assert cleanups[id] == 0;
  }

  /** Out of the tree an entry must be marked for closing. */
  lemma CountedDrop(files: Files, members: set<Ptr>, cleanups: multiset<Ptr>, id: Ptr)
    requires Counted(files, members, cleanups, {}) && id in files && files[id].err == 0 && !files[id].isDir
    ensures Counted(files[id := files[id].(close := true)], members - {id}, cleanups, {id})
  {
  }

  lemma CountedDropErr(files: Files, members: set<Ptr>, cleanups: multiset<Ptr>, id: Ptr)
    requires Counted(files, members, cleanups, {}) && id in files && (files[id].err != 0 || files[id].isDir)
    ensures Counted(files - {id}, members - {id}, cleanups, {})
  {
    assert FileOk(files[id], id in members, cleanups[id]);
  }

  /** One user less: the entry may be left idle. */
  lemma CountedRelease(files: Files, members: set<Ptr>, cleanups: multiset<Ptr>, id: Ptr, f: File)
    requires Counted(files, members, cleanups, {}) && id in cleanups && id in files
    requires f == files[id].(count := files[id].count - 1)
    ensures Counted(files[id := f], members, cleanups - multiset{id}, {id})
  {
    assert FileOk(files[id], id in members, cleanups[id]);
  }

  lemma DescriptorsOpen(files: Files, owner: map<int, Ptr>, fds: set<int>, loose: set<int>, id: Ptr)
    requires Descriptors(files, owner, fds, loose) && id in files && files[id].fd != NO_FD
    ensures files[id].fd in fds && files[id].fd !in loose
  {
  }

  lemma DescriptorsLoose(files: Files, owner: map<int, Ptr>, fds: set<int>, loose: set<int>, fd: int)
    requires Descriptors(files, owner, fds, loose + {fd}) && fd !in loose
    ensures fd in fds && Descriptors(files, owner, fds - {fd}, loose)
  {
  }

  lemma DescriptorsGrow(files: Files, owner: map<int, Ptr>, fds: set<int>, loose: set<int>, fd: int)
    requires Descriptors(files, owner, fds, loose) && fd != NO_FD && fd !in fds
    ensures Descriptors(files, owner, fds + {fd}, loose + {fd})
    ensures fd !in loose
  {
  }

  lemma DescriptorsAdd(files: Files, owner: map<int, Ptr>, fds: set<int>, loose: set<int>, id: Ptr, f: File)
    requires Descriptors(files, owner, fds, loose) && id !in files && f.fd == NO_FD
    ensures Descriptors(files[id := f], owner, fds, loose)
  {
  }

  lemma CountedAdd(files: Files, members: set<Ptr>, cleanups: multiset<Ptr>, id: Ptr, f: File)
    requires Counted(files, members, cleanups, {}) && id !in files && members <= files.Keys
    requires f.count == 0 && f.fd == NO_FD && (f.err == 0 ==> !f.close)
    ensures Counted(files[id := f], members + {id}, cleanups, {})
  {
    assert cleanups[id] == 0;
  }

  /** Expiry allocates nothing. */
  lemma {:induction false} FreshPtr(files: Files, tail: seq<Ptr>, p: Ptr)
    requires p !in files
    ensures p !in DropAll(files, tail)
  {
    if tail != [] {
      FreshPtr(files, tail[1..], p);
    }
  }

  /** The entry takes a new answer; unless that is an error or a directory, it has one user more. */
  lemma CountedAnswer(files: Files, members: set<Ptr>, cleanups: multiset<Ptr>, id: Ptr, f: File, of: OpenInfo)
    requires Counted(files, members, cleanups, {}) && id in files && id in members
    requires f.err == of.err && f.fd == of.fd && (of.err == 0 ==> f.isDir == of.isDir && !f.close)
    requires of.err != 0 || of.isDir ==> of.fd == NO_FD && files[id].count == 0
    requires of.err == 0 && !of.isDir ==> of.fd != NO_FD
    requires f.count == files[id].count + (if of.err == 0 && !of.isDir then 1 else 0)
    ensures Counted(files[id := f], members,
                    if of.err == 0 && !of.isDir then cleanups + multiset{id} else cleanups, {})
  {
    assert FileOk(files[id], true, cleanups[id]);
  }

  /** A descriptor, as the set of those there are. */
  ghost function Loose(fd: int): set<int> {
    if fd == NO_FD then {} else {fd}
  }

  /** An entry takes over a descriptor the call has in hand; one it had before is nobody's now. */
  lemma DescriptorsTake(
      files: Files, owner: map<int, Ptr>, fds: set<int>, loose: set<int>, fd: int, id: Ptr, f: File)
    requires Descriptors(files, owner, fds, loose + {fd}) && fd !in loose && id in files && f.fd == fd
    ensures var was := Loose(files[id].fd);
            Descriptors(files[id := f], (owner - was)[fd := id], fds, loose + was)
  {
  }

  class Cache {
    const max: nat
    const inactive: int
    var files: Files                     // all allocated entries, in the tree or not
    var tree: map<Name, Ptr>           // the red-black tree, keyed by name
    var queue: seq<Ptr>                  // expire_queue: most recently used first
    var current: int
    var fds: set<int>                    // the descriptors the process has open
    ghost var members: set<Ptr>          // the entries in the tree
    ghost var owner: map<int, Ptr>       // descriptor to entry
    ghost var cleanups: multiset<Ptr>    // the outstanding cleanups, by entry
    ghost var lost: set<int>             // descriptors that are open, but no longer known to any entry

    /** What holds between operations. */
    ghost predicate Valid()
      reads this
    {
      ValidBut({}, lost, {}) && current <= max
    }

    /**
      What holds inside an operation that has taken the entries `taken` off the queue, has the
      descriptors `loose` in hand or lost, and has left the entries `idle` without users.
     */
    ghost predicate ValidBut(taken: set<Ptr>, loose: set<int>, idle: set<Ptr>)
      reads this
    {
      && max >= 1
      && Indexed(files, tree, members)
      && taken <= members && Lists(queue, members - taken)
      && current == |tree|
      && Descriptors(files, owner, fds, loose)
      && Counted(files, members, cleanups, idle)
    }

    /** ngx_open_file_cache_init; the configuration demands max >= 1 */
    constructor (max: nat, inactive: int)
      requires max >= 1
      ensures Valid() && files == map[] && tree == map[] && fds == {} && lost == {}
      ensures this.max == max && this.inactive == inactive
    {
      this.max, this.inactive := max, inactive;
      files, tree, queue, current, fds := map[], map[], [], 0, {};
      members, owner, cleanups, lost := {}, map[], multiset{}, {};
    }

    /** close(): the descriptor must be open, so no descriptor is closed twice. */
    method CloseFd(fd: int)
      requires fd in fds
      modifies this`fds
      ensures fds == old(fds) - {fd}
    {
      fds := fds - {fd};
    }

    /** ngx_close_cached_file */
    method CloseCached(id: Ptr, minUses: int, now: int, ghost loose: set<int>)
      requires ValidBut({}, loose, {id}) && id in files && files[id].err == 0 && !files[id].isDir
      requires id in members ==> files[id].fd != NO_FD
      modifies this`files, this`queue, this`fds, this`owner
      ensures ValidBut({}, loose, {})
      ensures old(id in members) ==>
        && queue == [id] + Without(old(queue), id)
        && files == old(files)[id := old(files[id]).(
             accessed := now,
             fd := if old(files[id].uses < minUses && files[id].count == 0) then NO_FD else old(files[id].fd))]
      ensures old(id !in members) ==>
        && queue == old(queue)
        && files == if old(files[id].count > 0) then old(files) else old(files) - {id}
      ensures fds <= old(fds)
    {
      hide Indexed, Descriptors, Lists, Counted;
      var f := files[id];
      Known(id, loose);
      if !f.close {
        f := f.(accessed := now);
        Accessed(id, f, loose);
        files := files[id := f];
        queue := [id] + Without(queue, id);
        NotIdle(id, loose);
        if f.uses >= minUses || f.count > 0 {
          return;
        }
      }
      if f.count > 0 {
        NotIdle(id, loose);
        return;
      }
      if f.fd != NO_FD {
        ClosesOwn(id, loose);
        CloseFd(f.fd);
        owner := owner - {f.fd};
        f := f.(fd := NO_FD);
        files := files[id := f];
      }
      if !f.close {
        NotIdle(id, loose);
        return;
      }
      FreesOwn(id, loose);
      files := files - {id};
    }

    lemma Accessed(id: Ptr, f: File, loose: set<int>)
      requires ValidBut({}, loose, {id}) && id in members && id in files
      requires f == files[id].(accessed := f.accessed)
      ensures Indexed(files[id := f], tree, members) && Descriptors(files[id := f], owner, fds, loose)
      ensures Counted(files[id := f], members, cleanups, {id}) && Lists([id] + Without(queue, id), members - {})
    {
      hide Indexed, Descriptors, Lists, Counted;
      Known(id, loose);
      ListsMove(id);
      IndexedSet(files, tree, members, id, f);
      DescriptorsSet(files, owner, fds, loose, id, f);
      CountedSet(files, members, cleanups, {id}, id, f);
    }

    /** A member, or an entry with users, is not idle. */
    lemma NotIdle(id: Ptr, loose: set<int>)
      requires ValidBut({}, loose, {id}) && id in files && (id in members || files[id].count > 0)
      ensures ValidBut({}, loose, {})
    {
    }

    lemma ClosesOwn(id: Ptr, loose: set<int>)
      requires ValidBut({}, loose, {id}) && id in files && files[id].fd != NO_FD && files[id].count == 0
      ensures var f, fd := files[id].(fd := NO_FD), files[id].fd;
        && fd in fds && Indexed(files[id := f], tree, members)
        && Descriptors(files[id := f], owner - {fd}, fds - {fd}, loose)
        && Counted(files[id := f], members, cleanups, {id})
    {
      hide Indexed, Descriptors, Lists, Counted;
      Known(id, loose);
      var f := files[id].(fd := NO_FD);
      DescriptorsClose(files, owner, fds, loose, id, f);
      IndexedSet(files, tree, members, id, f);
      CountedSet(files, members, cleanups, {id}, id, f);
    }

    lemma FreesOwn(id: Ptr, loose: set<int>)
      requires ValidBut({}, loose, {id}) && id in files && id !in members
      requires files[id].fd == NO_FD && files[id].count == 0
      ensures Indexed(files - {id}, tree, members) && Descriptors(files - {id}, owner, fds, loose)
      ensures Counted(files - {id}, members, cleanups, {})
    {
      hide Indexed, Descriptors, Lists, Counted;
      CountedFree(files, members, cleanups, {id}, id);
      assert {id} - {id} == {};
      IndexedFree(files, tree, members, id);
      DescriptorsFree(files, owner, fds, loose, id);
    }

    lemma Known(id: Ptr, loose: set<int>)
      requires ValidBut({}, loose, {id}) && id in files
      ensures FileOk(files[id], id in members, cleanups[id])
      ensures Lists(queue, members) && members - {} == members
    {
      assert members - {} == members;
    }

    lemma ListsMove(id: Ptr)
      requires Lists(queue, members) && id in members
      ensures Lists([id] + Without(queue, id), members)
    {
      ListsWithout(queue, members, id);
      ListsPush(Without(queue, id), members - {id}, id);
      assert members - {id} + {id} == members;
    }

    /** ngx_rbtree_delete, current--, close = 1: from now on the entry lives for its users only. */
    method Detach(id: Ptr, ghost loose: set<int>)
      requires ValidBut({id}, loose, {}) && id in members && id in files && files[id].err == 0 && !files[id].isDir
      modifies this`files, this`tree, this`current, this`members
      ensures ValidBut({}, loose, {id})
      ensures files == old(files)[id := old(files)[id].(close := true)]
      ensures members == old(members) - {id} && tree == old(tree) - {old(files)[id].name}
      ensures current == old(current) - 1
    {
      hide Indexed, Descriptors, Lists, Counted;
      var f := files[id].(close := true);
      IndexedDrop(files, tree, members, id);
      IndexedSet(files, tree - {f.name}, members - {id}, id, f);
      DescriptorsSet(files, owner, fds, loose, id, f);
      CountedDrop(files, members, cleanups, id);
      assert members - {id} - {} == members - {id};
      tree := tree - {f.name};
      current := current - 1;
      files := files[id := f];
      members := members - {id};
    }

    lemma ForgetFacts(id: Ptr, loose: set<int>)
      requires ValidBut({id}, loose, {}) && id in members && id in files && (files[id].err != 0 || files[id].isDir)
      ensures |tree - {files[id].name}| == |tree| - 1
      ensures Indexed(files - {id}, tree - {files[id].name}, members - {id})
      ensures Descriptors(files - {id}, owner, fds, loose)
      ensures Counted(files - {id}, members - {id}, cleanups, {})
      ensures members - {id} - {} == members - {id}
    {
      hide Indexed, Descriptors, Lists, Counted;
      MemberFacts(id, {id}, loose);
      IndexedDrop(files, tree, members, id);
      IndexedFree(files, tree - {files[id].name}, members - {id}, id);
      DescriptorsFree(files, owner, fds, loose, id);
      CountedDropErr(files, members, cleanups, id);
    }

    /** Takes a cached error or directory out of the tree and frees it. */
    method Forget(id: Ptr, ghost loose: set<int>)
      requires ValidBut({id}, loose, {}) && id in members && id in files && (files[id].err != 0 || files[id].isDir)
      modifies this`files, this`tree, this`current, this`members
      ensures ValidBut({}, loose, {})
      ensures files == old(files) - {id}
      ensures members == old(members) - {id} && tree == old(tree) - {old(files)[id].name}
      ensures current == old(current) - 1
    {
      hide Indexed, Descriptors, Lists, Counted;
      ForgetFacts(id, loose);
      tree := tree - {files[id].name};
      current := current - 1;
      files := files - {id};
      members := members - {id};
    }

    /** One round of the expiry loop: the last entry of the queue goes. */
    method DropLast(now: int, ghost loose: set<int>) returns (id: Ptr)
      requires ValidBut({}, loose, {}) && queue != []
      modifies this`files, this`tree, this`queue, this`current, this`fds, this`members, this`owner
      ensures ValidBut({}, loose, {})
      ensures id == old(queue[|queue| - 1]) && queue == old(queue[..|queue| - 1]) && id in old(members)
      ensures id in old(files) && files == Drop(old(files), id)
      ensures members == old(members) - {id} && tree == old(tree) - {old(files)[id].name}
      ensures current == old(current) - 1
      ensures fds <= old(fds)
    {
      hide Indexed, Descriptors, Lists, Counted;
      id := queue[|queue| - 1];
      TakeLast(loose);
      queue := queue[..|queue| - 1];
      if files[id].err == 0 && !files[id].isDir {
        Detach(id, loose);
        CloseCached(id, 0, now, loose);
      } else {
        Forget(id, loose);
      }
    }

    lemma TakeLast(loose: set<int>)
      requires ValidBut({}, loose, {}) && queue != []
      ensures var id := queue[|queue| - 1];
              && id in members && id in files && Lists(queue[..|queue| - 1], members - {id})
              && FileOk(files[id], true, cleanups[id])
    {
      assert members - {} == members;
      ListsLast(queue, members);
      ListsWithout(queue, members, queue[|queue| - 1]);
    }

    lemma MemberFacts(id: Ptr, taken: set<Ptr>, loose: set<int>)
      requires ValidBut(taken, loose, {}) && id in members
      ensures id in files && FileOk(files[id], true, cleanups[id])
      ensures files[id].name in tree && tree[files[id].name] == id
    {
    }

    /**
      ngx_expire_old_cached_files: n == 0 first drops the least recently used entry whatever its
      age; then, and for n == 1 at once, up to two entries go that were idle for too long.
     */
    method Expire(n0: int, now: int, ghost loose: set<int>)
      requires ValidBut({}, loose, {}) && 0 <= n0 <= 1
      modifies this`files, this`tree, this`queue, this`current, this`fds, this`members, this`owner
      ensures ValidBut({}, loose, {})
      ensures |old(queue)| - (3 - n0) <= |queue| <= |old(queue)| && queue == old(queue)[..|queue|]
      ensures files == DropAll(old(files), old(queue)[|queue|..])
      ensures forall n :: n in tree ==> n in old(tree) && tree[n] == old(tree)[n]
      ensures current == old(current) - (|old(queue)| - |queue|)
      ensures forall i :: |queue| <= i < |old(queue)| - (1 - n0) && old(queue)[i] in old(files) ==>
                now - old(files)[old(queue)[i]].accessed > inactive
      ensures n0 == 0 && old(queue) != [] ==> |queue| < |old(queue)|
      ensures |queue| > |old(queue)| - (3 - n0) && queue != [] ==>
                var last := queue[|queue| - 1];
                last in files && now - files[last].accessed <= inactive
      ensures fds <= old(fds)
    {
      hide Indexed, Descriptors, Counted, Lists, Drop, ValidBut;
      var n := n0;
      QueueDistinct(loose);
      while n < 3
        invariant n0 <= n <= 3
        invariant ValidBut({}, loose, {})
        invariant |queue| == |old(queue)| - (n - n0) && queue == old(queue)[..|queue|]
        invariant files == DropAll(old(files), old(queue)[|queue|..])
        invariant forall x :: x in tree ==> x in old(tree) && tree[x] == old(tree)[x]
        invariant current == old(current) - (n - n0) && fds <= old(fds)
        invariant forall i :: |queue| <= i < |old(queue)| - (1 - n0) && old(queue)[i] in old(files) ==>
                    now - old(files)[old(queue)[i]].accessed > inactive
      {
        if queue == [] {
          return;
        }
        LastFacts(old(files), old(queue), loose);
        var file := files[queue[|queue| - 1]];
        n := n + 1;
        if n - 1 != 0 && now - file.accessed <= inactive {
          return;
        }
        DropOneMore(old(files), old(queue), |queue| - 1);
        var id := DropLast(now, loose);
      }
    }

    lemma QueueDistinct(loose: set<int>)
      requires ValidBut({}, loose, {})
      ensures forall i, j :: 0 <= i < j < |queue| ==> queue[i] != queue[j]
    {
      ListsFacts(queue, members - {});
    }

    lemma LastFacts(files0: Files, queue0: seq<Ptr>, loose: set<int>)
      requires ValidBut({}, loose, {}) && 0 < |queue| <= |queue0| && queue == queue0[..|queue|]
      requires files == DropAll(files0, queue0[|queue|..])
      requires forall i, j :: 0 <= i < j < |queue0| ==> queue0[i] != queue0[j]
      ensures queue[|queue| - 1] in files
      ensures forall i :: |queue| <= i < |queue0| ==> queue0[i] != queue[|queue| - 1]
      ensures queue[|queue| - 1] in files0 && files[queue[|queue| - 1]] == files0[queue[|queue| - 1]]
    {
      var x := queue[|queue| - 1];
      assert members - {} == members;
      ListsLast(queue, members);
      DropAllKeeps(files0, queue0[|queue|..], x);
    }

    /** ngx_open_file_cleanup: a request that used an entry ends. */
    method Cleanup(id: Ptr, minUses: int, now: int)
      requires Valid() && id in cleanups
      modifies this
      ensures Valid() && id in old(files) && cleanups == old(cleanups) - multiset{id} && lost == old(lost)
      ensures var q := if old(id in members) then [id] + Without(old(queue), id) else old(queue);
        && |q| - 2 <= |queue| <= |q| && queue == q[..|queue|]
        && files == DropAll(Release(old(files), id, old(id in members), minUses, now), q[|queue|..])
      ensures fds <= old(fds)
    {
      hide Indexed, Descriptors, Lists, Counted;
      CleanupFacts(id);
      var f := files[id].(count := files[id].count - 1);
      ghost var cleanups' := cleanups - multiset{id};
      IndexedSet(files, tree, members, id, f);
      DescriptorsSet(files, owner, fds, lost, id, f);
      CountedRelease(files, members, cleanups, id, f);
      files := files[id := f];
      cleanups := cleanups';
      CloseCached(id, minUses, now, lost);
      assert files == Release(old(files), id, old(id in members), minUses, now);
      Expire(1, now, lost);
    }

    lemma CleanupFacts(id: Ptr)
      requires Valid() && id in cleanups
      ensures id in files && FileOk(files[id], id in members, cleanups[id]) && files[id].count > 0
    {
    }

    /** ngx_open_and_stat_file */
    method OpenAndStat(of: OpenInfo, sys: System) returns (rc: Rc, of': OpenInfo)
      requires Honest(sys, fds)
      modifies this`fds
      ensures (rc, of') == OpenStat(of, sys)
      ensures fds == if NewFd(of, sys) then old(fds) + {of'.fd} else old(fds)
    {
      of' := of;
      if of.fd != NO_FD {
        if sys.stat.StatFailed? {
          return ERROR, of.(fd := NO_FD, err := sys.stat.errno);
        }
        if of.uniq == sys.stat.stat.uniq {
          return OK, WithStat(of, sys.stat.stat);
        }
      } else if of.testDir {
        if sys.stat.StatFailed? {
          return ERROR, of.(fd := NO_FD, err := sys.stat.errno);
        }
        if sys.stat.stat.isDir {
          return OK, WithStat(of, sys.stat.stat);
        }
      }
      match sys.open {
        case OpenFailed(errno) =>
          return ERROR, of.(fd := NO_FD, err := errno);
        case FstatFailed(fd) =>
          fds := fds + {fd};
          CloseFd(fd);
          return ERROR, of.(fd := NO_FD);
        case Opened(fd, st) =>
          fds := fds + {fd};
          if st.isDir {
            CloseFd(fd);
            of' := of'.(fd := NO_FD);
          } else {
            of' := of'.(fd := fd);
            if of.directio <= st.info.size && sys.directioOn {
              of' := of'.(isDirectio := true);
            }
          }
          return OK, WithStat(of', st);
      }
    }

    /** The labels `update` and `found`: the entry takes the new answer and becomes the youngest. */
    method Update(id: Ptr, of: OpenInfo, now: int, ghost loose: set<int>) returns (rc: Rc)
      requires ValidBut({id}, loose, {}) && id in members && id in files && current <= max
      requires if loose == lost then of.fd == files[id].fd else loose == lost + {of.fd} && of.fd !in lost
      requires of.err != 0 || of.isDir ==> of.fd == NO_FD && files[id].count == 0
      requires of.err == 0 && !of.isDir ==> of.fd != NO_FD
      modifies this`files, this`queue, this`owner, this`cleanups, this`lost
      ensures Valid() && Answered(id, of, now)
      ensures queue == [id] + old(queue)
      ensures loose == old(lost) || old(files[id].fd) == NO_FD ==> lost == old(lost)
      ensures loose != old(lost) && old(files[id].fd) != NO_FD ==> lost == old(lost) + {old(files[id].fd)}
      ensures rc == if of.err == 0 then OK else ERROR
      ensures cleanups == if of.err == 0 && !of.isDir then old(cleanups) + multiset{id} else old(cleanups)
      ensures files == old(files)[id := files[id]] && files[id].name == old(files)[id].name
      ensures files[id].fd == of.fd
      ensures files[id].count == old(files[id].count) + (if of.err == 0 && !of.isDir then 1 else 0)
      ensures Taken(id, of, now)
    {
      hide Indexed, Descriptors, Lists, Counted;
      var f := files[id];
      f := f.(fd := of.fd, err := of.err, symlinks := of.symlinks);
      if of.err == 0 {
        f := f.(uniq := of.uniq, info := of.info, close := false, isDir := of.isDir, isDirectio := of.isDirectio);
        if !of.isDir {
          f := f.(count := f.count + 1);
        }
      }
      f := f.(created := now, accessed := now);
      IndexedSet(files, tree, members, id, f);
      if loose == lost {
        DescriptorsSet(files, owner, fds, loose, id, f);
      } else {
        DescriptorsTake(files, owner, fds, lost, of.fd, id, f);
        owner, lost := (owner - Loose(files[id].fd))[of.fd := id], lost + Loose(files[id].fd);
      }
      CountedAnswer(files, members, cleanups, id, f, of);
      ListsPush(queue, members - {id}, id);
      assert members - {id} + {id} == members - {};
      if of.err == 0 && !of.isDir {
        cleanups := cleanups + multiset{id};
      }
      files := files[id := f];
      queue := [id] + queue;
      if f.fd != NO_FD {
        DescriptorsOpen(files, owner, fds, lost, id);
      }
      rc := if of.err == 0 then OK else ERROR;
    }

    /** What the tree holds for a name once its answer has been taken over or found fresh. */
    ghost predicate Answered(id: Ptr, of: OpenInfo, now: int)
      reads this
    {
      && id in members && id in files && queue != [] && queue[0] == id
      && files[id].err == of.err && files[id].fd == of.fd && files[id].accessed == now
      && (of.err == 0 ==>
            && files[id].uniq == of.uniq && files[id].isDir == of.isDir && files[id].info == of.info
            && (!of.isDir ==> of.fd in fds && id in cleanups))
    }

    /** The entry has taken an answer of the system over: from now on it is fresh for a while. */
    ghost predicate Taken(id: Ptr, of: OpenInfo, now: int)
      reads this`files
    {
      && id in files && files[id].created == now && files[id].symlinks == of.symlinks
      && (of.err == 0 ==> files[id].isDirectio == of.isDirectio)
    }

    /** The label `failed` for a known entry: it leaves the tree, and lives on only for its users. */
    method Fail(id: Ptr, now: int)
      requires ValidBut({id}, lost, {}) && id in members && id in files && current <= max
      modifies this`files, this`tree, this`current, this`queue, this`fds, this`owner, this`members
      ensures Valid() && id !in members
      ensures files == Drop(old(files), id)
      ensures members == old(members) - {id} && tree == old(tree) - {old(files)[id].name}
      ensures fds <= old(fds)
    {
      hide Indexed, Descriptors, Lists, Counted;
      MemberFacts(id, {id}, lost);
      if files[id].err != 0 || files[id].isDir {
        Forget(id, lost);
      } else {
        Detach(id, lost);
        CloseCached(id, 0, now, lost);
      }
    }

    /** A hit or a retest begins: one more use, and the entry leaves its place in the queue. */
    method Touch(id: Ptr)
      requires Valid() && id in members && id in files
      modifies this`files, this`queue
      ensures ValidBut({id}, lost, {})
      ensures files == old(files)[id := old(files)[id].(uses := old(files)[id].uses + 1)]
      ensures queue == Without(old(queue), id)
    {
      hide Indexed, Descriptors, Lists, Counted;
      MemberFacts(id, {}, lost);
      var f := files[id].(uses := files[id].uses + 1);
      assert members - {} == members;
      IndexedSet(files, tree, members, id, f);
      DescriptorsSet(files, owner, fds, lost, id, f);
      CountedSet(files, members, cleanups, {}, id, f);
      ListsWithout(queue, members, id);
      files := files[id := f];
      queue := Without(queue, id);
    }

    /** The entry is fresh: it answers, without a system call. */
    method Hit(id: Ptr, of: OpenInfo, now: int) returns (rc: Rc, of': OpenInfo)
      requires ValidBut({id}, lost, {}) && id in members && id in files && current <= max
      requires Fresh(files[id], of, now) && of.fd == NO_FD && of.err == 0 && !of.isDir
      modifies this`files, this`queue, this`cleanups
      ensures Valid() && Answered(id, of', now) && queue == [id] + old(queue)
      ensures var f := old(files)[id];
        && rc == (if f.err == 0 then OK else ERROR) && of' == FromCache(f, of)
        && of'.fd == f.fd && of'.err == f.err
        && files == old(files)[id := f.(accessed := now, count := f.count + if rc == OK && !f.isDir then 1 else 0)]
      ensures cleanups == if rc == OK && !of'.isDir then old(cleanups) + multiset{id} else old(cleanups)
    {
      hide Indexed, Descriptors, Lists, Counted;
      MemberFacts(id, {id}, lost);
      var f := files[id];
      if f.err == 0 {
        of' := of.(fd := f.fd, uniq := f.uniq, info := f.info, isDir := f.isDir, isDirectio := f.isDirectio);
        if !f.isDir {
          f := f.(count := f.count + 1);
        }
      } else {
        of' := of.(err := f.err);
      }
      f := f.(accessed := now);
      IndexedSet(files, tree, members, id, f);
      DescriptorsSet(files, owner, fds, lost, id, f);
      CountedAnswer(files, members, cleanups, id, f, of'.(fd := f.fd));
      ListsPush(queue, members - {id}, id);
      assert members - {id} + {id} == members - {};
      if of'.err == 0 && !of'.isDir {
        cleanups := cleanups + multiset{id};
      }
      files := files[id := f];
      queue := [id] + queue;
      if f.fd != NO_FD {
        DescriptorsOpen(files, owner, fds, lost, id);
      }
      rc := if f.err == 0 then OK else ERROR;
    }

    /** ngx_rbtree_insert of a new entry, and current++; fields the source leaves unset are junk. */
    method Admit(name: Name, of: OpenInfo, p: Ptr, junk: File, ghost loose: set<int>)
      requires ValidBut({}, loose, {}) && name !in tree && p !in files && current < max
      modifies this`files, this`tree, this`members, this`current
      ensures ValidBut({p}, loose, {}) && members == old(members) + {p} && current == old(current) + 1
      ensures tree == old(tree)[name := p] && files == old(files)[p := files[p]]
      ensures files[p].name == name && files[p].fd == NO_FD && files[p].count == 0
    {
      hide Indexed, Descriptors, Lists, Counted;
      var f := junk.(name := name, uses := 1, count := 0, fd := NO_FD, err := of.err);
      if of.err == 0 {
        f := f.(close := false, isDir := of.isDir);
      }
      OffQueue(p);
      IndexedAdd(files, tree, members, p, f);
      DescriptorsAdd(files, owner, fds, loose, p, f);
      CountedAdd(files, members, cleanups, p, f);
      assert members + {p} - {p} == members - {};
      files := files[p := f];
      tree := tree[name := p];
      members := members + {p};
      current := current + 1;
    }

    /** A new entry, and the label `update` for it. */
    method Insert(name: Name, of: OpenInfo, now: int, p: Ptr, junk: File) returns (rc: Rc)
      requires ValidBut({}, lost + Loose(of.fd), {}) && Loose(of.fd) !! lost
      requires name !in tree && p !in files && current < max
      requires of.err != 0 || of.isDir <==> of.fd == NO_FD
      modifies this
      ensures Valid() && Answered(p, of, now) && queue == [p] + old(queue) && lost == old(lost) && fds == old(fds)
      ensures tree == old(tree)[name := p] && files == old(files)[p := files[p]] && files[p].name == name
      ensures rc == if of.err == 0 then OK else ERROR
      ensures cleanups == if of.err == 0 && !of.isDir then old(cleanups) + multiset{p} else old(cleanups)
      ensures Taken(p, of, now)
    {
      hide ValidBut, Answered;
      ghost var loose := lost + Loose(of.fd);
      Admit(name, of, p, junk, loose);
      ghost var files1 := files;
      rc := Update(p, of, now, loose);
      assert files == files1[p := files[p]] && files[p].name == name;
    }

    /** The first step at `create`: a full cache drops its least recently used entry. */
    method MakeRoom(name: Name, now: int, ghost p: Ptr, ghost loose: set<int>)
      requires ValidBut({}, loose, {}) && name !in tree && current <= max
      modifies this`files, this`tree, this`queue, this`current, this`fds, this`members, this`owner
      ensures ValidBut({}, loose, {}) && KeepsUsed(old(files), files, {}) && Spares(old(tree), tree, name)
      ensures name !in tree && (p !in old(files) ==> p !in files) && current < max
      ensures old(current) < max ==> tree == old(tree) && files == old(files)
      ensures fds <= old(fds)
    {
      hide Indexed, Descriptors, Lists, Counted, KeepsUsed;
      DropAllIsKind(files, []);
      if current >= max {
        QueueLength(loose);
        Expire(0, now, loose);
        DropAllIsKind(old(files), old(queue)[|queue|..]);
        if p !in old(files) {
          FreshPtr(old(files), old(queue)[|queue|..], p);
        }
      }
    }

    /** Closes a new descriptor that no entry can take. */
    method GiveBack(fd: int)
      requires ValidBut({}, lost + Loose(fd), {}) && Loose(fd) !! lost
      modifies this`fds
      ensures ValidBut({}, lost, {}) && fds <= old(fds)
    {
      hide Indexed, Descriptors, Lists, Counted;
      assert fd == NO_FD ==> lost + Loose(fd) == lost;
      if fd != NO_FD {
        DescriptorsLoose(files, owner, fds, lost, fd);
        CloseFd(fd);
      }
    }

    /** The label `create`: room is made if the cache is full, and the answer gets a new entry. */
    method Create(name: Name, of: OpenInfo, now: int, alloc: bool, p: Ptr, junk: File) returns (rc: Rc)
      requires ValidBut({}, lost + Loose(of.fd), {}) && Loose(of.fd) !! lost
      requires name !in tree && (alloc ==> p !in files) && current <= max
      requires of.err != 0 || of.isDir <==> of.fd == NO_FD
      modifies this
      ensures Valid() && KeepsUsed(old(files), files, {}) && lost == old(lost)
      ensures alloc ==> Answered(p, of, now) && name in tree && tree[name] == p && files[p].name == name
      ensures alloc ==> rc == if of.err == 0 then OK else ERROR
      ensures !alloc ==> rc == ERROR && name !in tree
      ensures cleanups == if alloc && of.err == 0 && !of.isDir then old(cleanups) + multiset{p} else old(cleanups)
      ensures Spares(old(tree), tree, name)
      ensures alloc && old(current) < max ==> tree == old(tree)[name := p] && files == old(files)[p := files[p]]
      ensures fds <= old(fds)
      ensures alloc ==> Taken(p, of, now)
    {
      hide ValidBut, KeepsUsed, Spares, Answered;
      MakeRoom(name, now, p, lost + Loose(of.fd));
      ghost var files1, tree1 := files, tree;
      if !alloc {
        GiveBack(of.fd);
        return ERROR;
      }
      rc := Insert(name, of, now, p, junk);
      KeepsUsedAdd(files1, p, files[p]);
      KeepsUsedMore(old(files), files1, files, {});
      SparesAdd(tree1, name, p);
      SparesMore(old(tree), tree1, tree, name);
    }

    /** The queue is as long as the tree is big. */
    lemma QueueLength(loose: set<int>)
      requires ValidBut({}, loose, {})
      ensures |queue| == current == |tree|
    {
      assert members - {} == members;
      ListsFacts(queue, members);
    }

    lemma OffQueue(p: Ptr)
      requires Indexed(files, tree, members) && p !in files
      ensures p !in members && members <= files.Keys
    {
      assert forall x :: x in members ==> x in files.Keys;
    }

    /** ngx_close_file on an entry without users; `update` overwrites the stale number. */
    method CloseStale(id: Ptr, ghost loose: set<int>)
      requires ValidBut({id}, loose, {}) && id in members && id in files
      requires files[id].count == 0 && files[id].fd != NO_FD
      modifies this`files, this`fds, this`owner
      ensures ValidBut({id}, loose, {})
      ensures files == old(files)[id := old(files)[id].(fd := NO_FD)]
      ensures fds <= old(fds)
    {
      hide Indexed, Descriptors, Lists, Counted;
      MemberFacts(id, {id}, loose);
      var f := files[id].(fd := NO_FD);
      DescriptorsClose(files, owner, fds, loose, id, f);
      IndexedSet(files, tree, members, id, f);
      CountedSet(files, members, cleanups, {}, id, f);
      CloseFd(files[id].fd);
      owner := owner - {files[id].fd};
      files := files[id := f];
    }

    /** An entry out of the tree that still has users is not idle. */
    lemma Settle(id: Ptr, loose: set<int>)
      requires ValidBut({}, loose, {id}) && id in files && files[id].count > 0
      ensures ValidBut({}, loose, {})
    {
    }

    /** How a call ends: the tree holds what the caller was told, or does not know the name. */
    ghost predicate Outcome(name: Name, before: multiset<Ptr>, rc: Rc, of: OpenInfo, now: int)
      reads this
    {
      && (rc == OK ==> of.err == 0 && name in tree)
      && (name in tree ==> Answered(tree[name], of, now) && (rc == OK <==> of.err == 0))
      && cleanups == (if rc == OK && !of.isDir && name in tree then before + multiset{tree[name]} else before)
    }

    /** The system call of a retest, with the invariant around it. */
    method Ask(of0: OpenInfo, sys: System, ghost taken: set<Ptr>)
        returns (rc: Rc, of: OpenInfo, ghost loose: set<int>)
      requires ValidBut(taken, lost, {}) && Honest(sys, fds)
      requires of0.err == 0 && !of0.isDir && (of0.fd != NO_FD ==> Kept(sys, of0.uniq))
      modifies this`fds
      ensures (rc, of) == OpenStat(of0, sys)
      ensures loose == if NewFd(of0, sys) then lost + {of.fd} else lost
      ensures NewFd(of0, sys) ==> of.fd !in lost && of.fd !in old(fds)
      ensures ValidBut(taken, loose, {})
      ensures fds <= old(fds) + Loose(of.fd)
    {
      hide Indexed, Descriptors, Lists, Counted;
      StatFacts(of0, sys);
      ghost var fds0 := fds;
      rc, of := OpenAndStat(of0, sys);
      loose := lost;
      if NewFd(of0, sys) {
        loose := lost + {of.fd};
        DescriptorsGrow(files, owner, fds0, lost, of.fd);
      }
    }

    /** What a retest may hand on: the entry's own descriptor with its identity, or a new one. */
    ghost predicate Adoptable(f: File, of: OpenInfo, loose: set<int>)
      reads this
    {
      && (of.err == 0 ==> (of.isDir <==> of.fd == NO_FD))
      && (of.err != 0 ==> of.fd == NO_FD && !of.isDir)
      && (of.fd == NO_FD ==> loose == lost)
      && (of.fd != NO_FD && loose == lost ==> of.fd == f.fd && of.uniq == f.uniq)
      && (loose != lost ==> loose == lost + {of.fd} && of.fd !in lost && of.fd != f.fd)
    }

    /** A used entry whose file has changed: it is detached for its users, and another takes its name. */
    method Replace(id: Ptr, of: OpenInfo, now: int, alloc: bool, p: Ptr, junk: File, ghost loose: set<int>)
        returns (rc: Rc)
      requires ValidBut({id}, loose, {}) && id in members && id in files && current <= max && (alloc ==> p !in files)
      requires files[id].count > 0 && loose == lost + Loose(of.fd) && Loose(of.fd) !! lost
      requires of.err != 0 || of.isDir <==> of.fd == NO_FD
      modifies this
      ensures Valid() && KeepsUsed(old(files), files, {}) && lost == old(lost)
      ensures Outcome(old(files)[id].name, old(cleanups), rc, of, now)
      ensures Spares(old(tree), tree, old(files)[id].name)
      ensures fds <= old(fds)
      ensures var name := old(files)[id].name; if alloc then name in tree && tree[name] == p else name !in tree
      ensures alloc ==> Taken(p, of, now)
    {
      hide Indexed, Descriptors, Lists, Counted, ValidBut, Answered, Outcome, KeepsUsed, Spares;
      MemberFacts(id, {id}, loose);
      ghost var files0, tree0 := files, tree;
      var f := files[id];
      SparesLess(tree, f.name);
      Detach(id, loose);
      KeepsUsedSet(files0, id, files[id]);
      Settle(id, loose);
      ghost var files2, tree2 := files, tree;
      rc := Create(f.name, of, now, alloc, p, junk);
      SparesMore(tree0, tree2, tree, f.name);
      KeepsUsedMore(files0, files2, files, {});
      if alloc {
        Ends(p, f.name, old(cleanups), rc, of, now);
      } else {
        Lost(f.name, old(cleanups), rc, of, now);
      }
    }

    /** Where the answer is found from now on: in the old entry or, for the users' sake, in a new one. */
    ghost predicate Placed(name: Name, f: File, id: Ptr, of: OpenInfo, alloc: bool, p: Ptr)
      reads this
    {
      if !Succeeded(f, of) then name in tree && tree[name] == id
      else if alloc then name in tree && tree[name] == p
      else name !in tree
    }

    /** What becomes of the entry's own descriptor: a race makes the entry forget it. */
    ghost function Overwritten(f: File, of: OpenInfo): set<int> {
      if f.fd != NO_FD && of.fd != NO_FD && of.fd != f.fd && of.uniq == f.uniq then {f.fd} else {}
    }

    /** The branches of a retest after a usable answer: update the entry, or detach it and create another. */
    method Adopt(id: Ptr, of0: OpenInfo, now: int, alloc: bool, p: Ptr, junk: File, ghost loose: set<int>)
        returns (rc: Rc, of: OpenInfo)
      requires ValidBut({id}, loose, {}) && id in members && id in files && current <= max && (alloc ==> p !in files)
      requires Adoptable(files[id], of0, loose)
      requires files[id].fd != NO_FD || files[id].err != 0 || files[id].isDir
      modifies this
      ensures Valid() && KeepsUsed(old(files), files, lost)
      ensures lost == old(lost) + Overwritten(old(files[id]), of0)
      ensures of == Reply(old(files[id]), of0)
      ensures Placed(old(files[id].name), old(files[id]), id, of0, alloc, p)
      ensures Outcome(old(files)[id].name, old(cleanups), rc, of, now)
      ensures Spares(old(tree), tree, old(files)[id].name)
      ensures fds <= old(fds) + Loose(of.fd)
      ensures old(files)[id].name in tree ==> Taken(tree[old(files)[id].name], of, now)
    {
      hide Indexed, Descriptors, Lists, Counted, ValidBut, Answered, Outcome, KeepsUsed, Spares;
      of := of0;
      var f := files[id];
      MemberFacts(id, {id}, loose);
      var update := false;
      if of.isDir {
        if f.isDir || f.err != 0 {
          update := true;
        }
      } else if of.err == 0 {
        if f.isDir || f.err != 0 {
          update := true;
        } else if of.uniq == f.uniq {
          of := of.(isDirectio := f.isDirectio);
          update := true;
        }
      } else {
        if f.err != 0 || f.isDir {
          update := true;
        }
      }
      if update {
        rc := TakeOver(id, of, now, loose);
      } else {
        rc := GiveWay(id, of, now, alloc, p, junk, loose);
        KeepsUsedLess(old(files), files, lost);
      }
    }

    /** The entry takes an answer that does not differ from it. */
    method TakeOver(id: Ptr, of: OpenInfo, now: int, ghost loose: set<int>) returns (rc: Rc)
      requires ValidBut({id}, loose, {}) && id in members && id in files && current <= max
      requires Adoptable(files[id], of, loose) && !Changed(files[id], of)
      modifies this
      ensures Valid() && KeepsUsed(old(files), files, lost)
      ensures lost == old(lost) + Overwritten(old(files[id]), of)
      ensures old(files)[id].name in tree && tree[old(files)[id].name] == id
      ensures Outcome(old(files)[id].name, old(cleanups), rc, of, now)
      ensures Spares(old(tree), tree, old(files)[id].name)
      ensures fds <= old(fds)
      ensures Taken(id, of, now)
    {
      hide Indexed, Descriptors, Lists, Counted, ValidBut, Answered, Outcome, KeepsUsed, Spares;
      MemberFacts(id, {id}, loose);
      ghost var files0, f := files, files[id];
      SparesLess(tree, f.name);
      rc := Update(id, of, now, loose);
      if f.fd == files[id].fd || f.count == 0 {
        KeepsUsedSet(files0, id, files[id]);
        KeepsUsedLess(files0, files, lost);
      } else {
        KeepsUsedLost(files0, id, files[id], lost);
      }
      Ends(id, f.name, old(cleanups), rc, of, now);
    }

    /** The entry differs from the answer: unused, it is closed and takes it; used, it is replaced. */
    method GiveWay(id: Ptr, of: OpenInfo, now: int, alloc: bool, p: Ptr, junk: File, ghost loose: set<int>)
        returns (rc: Rc)
      requires ValidBut({id}, loose, {}) && id in members && id in files && current <= max && (alloc ==> p !in files)
      requires Adoptable(files[id], of, loose) && Changed(files[id], of) && files[id].fd != NO_FD
      modifies this
      ensures Valid() && KeepsUsed(old(files), files, {}) && lost == old(lost)
      ensures Placed(old(files[id].name), old(files[id]), id, of, alloc, p)
      ensures Outcome(old(files)[id].name, old(cleanups), rc, of, now)
      ensures Spares(old(tree), tree, old(files)[id].name)
      ensures fds <= old(fds)
      ensures old(files)[id].name in tree ==> Taken(tree[old(files)[id].name], of, now)
    {
      hide Indexed, Descriptors, Lists, Counted, ValidBut, Answered, Outcome, KeepsUsed, Spares;
      MemberFacts(id, {id}, loose);
      if files[id].count > 0 {
        rc := Replace(id, of, now, alloc, p, junk, loose);
        return;
      }
      ghost var files0, name := files, files[id].name;
      SparesLess(tree, name);
      CloseStale(id, loose);
      rc := Update(id, of, now, loose);
      assert files == files0[id := files[id]];
      KeepsUsedSet(files0, id, files[id]);
      Ends(id, name, old(cleanups), rc, of, now);
    }

    lemma Ends(id: Ptr, name: Name, before: multiset<Ptr>, rc: Rc, of: OpenInfo, now: int)
      requires Valid() && Answered(id, of, now) && name in tree && tree[name] == id
      requires rc == if of.err == 0 then OK else ERROR
      requires cleanups == if of.err == 0 && !of.isDir then before + multiset{id} else before
      ensures Outcome(name, before, rc, of, now)
    {
    }

    lemma Lost(name: Name, before: multiset<Ptr>, rc: Rc, of: OpenInfo, now: int)
      requires name !in tree && rc == ERROR && cleanups == before
      ensures Outcome(name, before, rc, of, now)
    {
    }

    lemma HasOpen(id: Ptr)
      requires ValidBut({id}, lost, {}) && id in files
      ensures files[id].fd != NO_FD ==> files[id].fd in fds
    {
    }

    /** A known entry that is stale, or was closed for want of use, is checked against the system. */
    method Retest(id: Ptr, of0: OpenInfo, sys: System, now: int, alloc: bool, p: Ptr, junk: File)
        returns (rc: Rc, of: OpenInfo)
      requires ValidBut({id}, lost, {}) && id in members && id in files && current <= max
      requires Honest(sys, fds) && (alloc ==> p !in files)
      requires of0.fd == files[id].fd && of0.err == 0 && !of0.isDir
      requires of0.fd != NO_FD ==> of0.uniq == files[id].uniq && Kept(sys, of0.uniq)
      modifies this
      ensures Valid() && KeepsUsed(old(files), files, lost)
      ensures lost == old(lost) + LostTo(old(files[id]), sys)
      ensures var (rc0, of1) := OpenStat(of0, sys);
        && of == (if Unusable(rc0, of1) then of1 else Reply(old(files[id]), of1))
        && if Unusable(rc0, of1) then old(files)[id].name !in tree
           else Placed(old(files[id].name), old(files[id]), id, of1, alloc, p)
      ensures Outcome(old(files)[id].name, old(cleanups), rc, of, now)
      ensures Spares(old(tree), tree, old(files)[id].name)
      ensures fds <= old(fds) + Loose(of.fd)
      ensures old(files)[id].name in tree ==> Taken(tree[old(files)[id].name], of, now)
    {
      hide Indexed, Descriptors, Lists, Counted, OpenStat, NewFd, ValidBut, Answered, Kept, Raced,
        Outcome, KeepsUsed, Spares;
      MemberFacts(id, {id}, lost);
      HasOpen(id);
      StatFacts(of0, sys);
      SparesLess(tree, files[id].name);
      ghost var loose;
      rc, of, loose := Ask(of0, sys, {id});
      var f := files[id];
      if Unusable(rc, of) {
        KeepsUsedDrop(files, id);
        KeepsUsedLess(files, Drop(files, id), lost);
        Fail(id, now);
        Lost(f.name, old(cleanups), rc, of, now);
        return;
      }
      if f.fd == NO_FD && f.err == 0 && !f.isDir {
        rc := Update(id, of, now, loose);
        KeepsUsedSet(old(files), id, files[id]);
        KeepsUsedLess(old(files), files, lost);
        Ends(id, f.name, old(cleanups), rc, of, now);
        return;
      }
      rc, of := Adopt(id, of, now, alloc, p, junk, loose);
    }

    /** What is told and kept when an entry does not answer by itself. */
    ghost predicate Stale(
        name: Name, f: File, id: Ptr, of0: OpenInfo, sys: System, alloc: bool, p: Ptr, of: OpenInfo)
      reads this
    {
      var (rc0, of1) := OpenStat(Question(f, of0), sys);
      && of == (if Unusable(rc0, of1) then of1 else Reply(f, of1))
      && if Unusable(rc0, of1) then name !in tree else Placed(name, f, id, of1, alloc, p)
    }

    /** A known entry that cannot answer from the cache. */
    method OpenStale(id: Ptr, of0: OpenInfo, sys: System, now: int, alloc: bool, p: Ptr, junk: File)
        returns (rc: Rc, of: OpenInfo)
      requires ValidBut({id}, lost, {}) && id in members && id in files && current <= max
      requires Honest(sys, fds) && (alloc ==> p !in files)
      requires of0.fd == NO_FD && of0.err == 0 && !of0.isDir
      requires files[id].fd != NO_FD ==> Kept(sys, files[id].uniq)
      modifies this
      ensures Valid() && KeepsUsed(old(files), files, lost)
      ensures lost == old(lost) + LostTo(old(files[id]), sys)
      ensures Stale(old(files[id].name), old(files[id]), id, of0, sys, alloc, p, of)
      ensures Outcome(old(files)[id].name, old(cleanups), rc, of, now)
      ensures Spares(old(tree), tree, old(files)[id].name)
      ensures fds <= old(fds) + Loose(of.fd)
      ensures old(files)[id].name in tree ==> Taken(tree[old(files)[id].name], of, now)
    {
      hide Indexed, Descriptors, Lists, Counted, OpenStat, NewFd, ValidBut, Answered, Kept, Raced, Outcome, KeepsUsed,
        Spares, Placed, LostTo;
      var f := files[id];
      of := of0;
      if f.fd == NO_FD && f.err == 0 && !f.isDir {
        rc, of := Retest(id, of, sys, now, alloc, p, junk);
        return;
      }
      if f.isDir {
        of := of.(testDir := true);
      }
      rc, of := Retest(id, of.(fd := f.fd, uniq := f.uniq), sys, now, alloc, p, junk);
    }

    /** The part of ngx_open_cached_file for a name that is in the tree. */
    method OpenKnown(name: Name, of0: OpenInfo, sys: System, now: int, alloc: bool, p: Ptr, junk: File)
        returns (rc: Rc, of: OpenInfo)
      requires Valid() && Honest(sys, fds) && (alloc ==> p !in files)
      requires of0.fd == NO_FD && of0.err == 0 && !of0.isDir
      requires name in tree && tree[name] in files
      requires files[tree[name]].fd != NO_FD && !Fresh(files[tree[name]], of0, now) ==>
        Kept(sys, files[tree[name]].uniq)
      modifies this
      ensures Valid() && KeepsUsed(old(files), files, lost)
      ensures lost == old(lost) +
        if old(Fresh(files[tree[name]], of0, now)) then {} else LostTo(old(files[tree[name]]), sys)
      ensures Outcome(name, old(cleanups), rc, of, now)
      ensures Spares(old(tree), tree, name)
      ensures old(Fresh(files[tree[name]], of0, now)) ==>
        var f := old(files[tree[name]]);
        && fds == old(fds) && tree == old(tree) && queue == [tree[name]] + Without(old(queue), tree[name])
        && of == FromCache(f, of0) && rc == (if f.err == 0 then OK else ERROR)
      ensures !old(Fresh(files[tree[name]], of0, now)) ==>
        Stale(name, old(files[tree[name]]), old(tree[name]), of0, sys, alloc, p, of)
      ensures fds <= old(fds) + Loose(of.fd)
      ensures !old(Fresh(files[tree[name]], of0, now)) && name in tree ==> Taken(tree[name], of, now)
    {
      hide *;
      var id := tree[name];
      TreeFacts(name);
      TouchFacts(files[id], of0, sys, now);
      Touch(id);
      SparesLess(tree, name);
      KeepsUsedSet(old(files), id, files[id]);
      ghost var files1 := files;
      if Fresh(files[id], of0, now) {
        rc, of := Hit(id, of0, now);
        KeepsUsedSet(files1, id, files[id]);
        KeepsUsedMore(old(files), files1, files, {});
        KeepsUsedLess(old(files), files, lost);
        Ends(id, name, old(cleanups), rc, of, now);
        return;
      }
      rc, of := OpenStale(id, of0, sys, now, alloc, p, junk);
      TouchedStale(name, old(files)[id], id, of0, sys, alloc, p, of);
      KeepsUsedMore(old(files), files1, files, lost);
    }

    /** The number of uses does not matter for how an entry answers. */
    lemma TouchFacts(f: File, of: OpenInfo, sys: System, now: int)
      ensures var f' := f.(uses := f.uses + 1);
        && (Fresh(f', of, now) <==> Fresh(f, of, now)) && LostTo(f', sys) == LostTo(f, sys)
        && FromCache(f', of) == FromCache(f, of)
    {
    }

    lemma TouchedStale(name: Name, f: File, id: Ptr, of0: OpenInfo, sys: System, alloc: bool, p: Ptr, of: OpenInfo)
      requires Stale(name, f.(uses := f.uses + 1), id, of0, sys, alloc, p, of)
      ensures Stale(name, f, id, of0, sys, alloc, p, of)
    {
      hide OpenStat;
    }

    /**
      ngx_open_cached_file, with a cache.  `cln` and `alloc` say whether the pool and the heap have
      memory, p is the address an allocation would get and `junk` what it holds.
     */
    method Open(name: Name, of0: OpenInfo, sys: System, now: int, cln: bool, alloc: bool, p: Ptr, junk: File)
        returns (rc: Rc, of: OpenInfo)
      requires Valid() && Honest(sys, fds) && (alloc ==> p !in files) && !of0.isDir
      requires name in tree ==> tree[name] in files
      requires name in tree && files[tree[name]].fd != NO_FD && !Fresh(files[tree[name]], Asked(of0), now) ==>
        Kept(sys, files[tree[name]].uniq)
      modifies this
      ensures Valid() && KeepsUsed(old(files), files, lost)
      ensures lost == old(lost) +
        if cln && name in old(tree) && !Fresh(old(files)[old(tree)[name]], Asked(of0), now)
        then LostTo(old(files)[old(tree)[name]], sys) else {}
      ensures !cln ==> rc == ERROR && unchanged(this)
      ensures cln ==> Outcome(name, old(cleanups), rc, of, now)
      ensures Spares(old(tree), tree, name)
      ensures cln && name in old(tree) && Fresh(old(files)[old(tree)[name]], Asked(of0), now) ==>
        var f := old(files)[old(tree)[name]];
        && fds == old(fds) && tree == old(tree) && queue == [tree[name]] + Without(old(queue), tree[name])
        && of == FromCache(f, Asked(of0)) && rc == (if f.err == 0 then OK else ERROR)
      ensures cln && name in old(tree) && !Fresh(old(files)[old(tree)[name]], Asked(of0), now) ==>
        Stale(name, old(files)[old(tree)[name]], old(tree)[name], Asked(of0), sys, alloc, p, of)
      ensures cln && name !in old(tree) ==>
        && of == OpenStat(Asked(of0), sys).1
        && (name in tree <==> alloc && !Unusable(OpenStat(Asked(of0), sys).0, of))
        && (name in tree ==> tree[name] == p)
      ensures fds <= old(fds) + Loose(of.fd)
      ensures cln && name in tree && !(name in old(tree) && Fresh(old(files)[old(tree)[name]], Asked(of0), now)) ==>
        Taken(tree[name], of, now)
    {
      hide Indexed, Descriptors, Lists, Counted, OpenStat, NewFd, ValidBut, Answered, Kept, Raced,
        Outcome, KeepsUsed, Spares, Fresh;
      SparesLess(tree, name);
      of := Asked(of0);
      if !cln {
        KeepsUsedSame(files);
        KeepsUsedLess(files, files, lost);
        return ERROR, of;
      }
      if name in tree {
        rc, of := OpenKnown(name, of, sys, now, alloc, p, junk);
        return;
      }
      StatFacts(of, sys);
      ghost var loose;
      rc, of, loose := Ask(of, sys, {});
      assert loose == lost + Loose(of.fd);
      KeepsUsedSame(files);
      KeepsUsedLess(files, files, lost);
      if !Unusable(rc, of) {
        rc := Create(name, of, now, alloc, p, junk);
        if alloc {
          Ends(p, name, old(cleanups), rc, of, now);
        } else {
          Lost(name, old(cleanups), rc, of, now);
        }
        KeepsUsedLess(old(files), files, lost);
      } else {
        Lost(name, old(cleanups), rc, of, now);
      }
    }

    /** A lost descriptor is open, and no entry has it. */
    lemma LostIsOpen(fd: int)
      requires Valid() && fd in lost
      ensures fd in fds && forall id :: id in files ==> files[id].fd != fd
    {
    }

    lemma HoldsAnswer(name: Name, before: multiset<Ptr>, rc: Rc, of: OpenInfo, now: int)
      requires Outcome(name, before, rc, of, now) && name in tree && of.err == 0
      ensures tree[name] in files
      ensures files[tree[name]].fd == of.fd && files[tree[name]].uniq == of.uniq
    {
    }

    /** The caller's request as the call starts with it. */
    function Asked(of: OpenInfo): OpenInfo {
      of.(fd := NO_FD, err := 0)
    }

    lemma KeepsUsedSame(fs: Files)
      ensures KeepsUsed(fs, fs, {})
    {
    }

    lemma TreeFacts(name: Name)
      requires Valid() && name in tree
      ensures tree[name] in members && tree[name] in files && files[tree[name]].name == name && current <= max
    {
    }
  }

  /** An answer as another call is given it. */
  predicate SameAnswer(a: OpenInfo, b: OpenInfo) {
    && a.fd == b.fd && a.err == b.err
    && (a.err == 0 ==> a.uniq == b.uniq && a.isDir == b.isDir && a.info == b.info && a.isDirectio == b.isDirectio)
  }

  /** A question that an answer of the system may serve, for as long as `valid` says. */
  predicate Serves(told: OpenInfo, ask: OpenInfo) {
    ask.symlinks == told.symlinks && (ask.uniq == 0 || (told.err == 0 && ask.uniq == told.uniq))
  }

  /**
    A call for a name whose entry took the answer `told` over at `since`.  While the answer is valid, it is
    given again and no descriptor is opened or closed; after that the system is asked again.
   */
  method OpenAgain(c: Cache, name: Name, told: OpenInfo, since: int, touched: int,
                   ask: OpenInfo, sys: System, now: int, alloc: bool, p: Ptr, junk: File)
      returns (rc: Rc, of: OpenInfo)
    requires c.Valid() && name in c.tree
    requires c.Answered(c.tree[name], told, touched) && c.Taken(c.tree[name], told, since)
    requires told.err != 0 || told.isDir <==> told.fd == NO_FD
    requires Honest(sys, c.fds) && (alloc ==> p !in c.files) && !ask.isDir && Serves(told, ask)
    requires now - since >= ask.valid && told.fd != NO_FD ==> Kept(sys, told.uniq)
    modifies c
    ensures c.Valid()
    ensures now - since < ask.valid ==>
      SameAnswer(of, told) && rc == (if told.err == 0 then OK else ERROR) && c.fds == old(c.fds)
      && c.tree == old(c.tree)
    ensures now - since >= ask.valid ==>
      c.Stale(name, old(c.files)[old(c.tree)[name]], old(c.tree)[name], c.Asked(ask), sys, alloc, p, of)
      && (name in c.tree ==> c.Taken(c.tree[name], of, now))
    ensures now - since >= ask.valid && told.fd != NO_FD && sys.stat.Stated? ==>
      && (sys.stat.stat.uniq == told.uniq ==>
            rc == OK && of.fd == told.fd && Tells(of, sys.stat.stat) && of.isDirectio == told.isDirectio)
      && (sys.stat.stat.uniq != told.uniq && sys.open.Opened? && !sys.open.stat.isDir ==>
            of.fd == sys.open.fd && Tells(of, sys.open.stat) && (rc == OK <==> name in c.tree))
    ensures now - since >= ask.valid && told.fd != NO_FD && sys.stat.StatFailed? ==>
      rc == ERROR && of.fd == NO_FD && of.err == sys.stat.errno && (name in c.tree ==> ask.errors)
  {
    hide Cache.ValidBut, Cache.Stale, KeepsUsed, Spares, OpenStat, LostTo, Honest, Kept;
    ghost var f, id := c.files[c.tree[name]], c.tree[name];
    ghost var cleanups, fds := c.cleanups, c.fds;
    rc, of := c.Open(name, ask, sys, now, true, alloc, p, junk);
    if now - since >= ask.valid && told.fd != NO_FD {
      HonestFd(sys, fds);
      StaleTells(c, name, f, id, c.Asked(ask), sys, alloc, p, of);
      RcIs(c, name, cleanups, rc, of, now);
    }
  }

  lemma RcIs(c: Cache, name: Name, before: multiset<Ptr>, rc: Rc, of: OpenInfo, now: int)
    requires c.Outcome(name, before, rc, of, now)
    ensures rc == OK ==> name in c.tree
    ensures name in c.tree ==> (rc == OK <==> of.err == 0)
  {
  }

  /** A file that is still the same is told as it is; another one, or its loss, as the system tells it. */
  lemma StaleTells(c: Cache, name: Name, f: File, id: Ptr, of0: OpenInfo, sys: System, alloc: bool, p: Ptr,
                   of: OpenInfo)
    requires c.Stale(name, f, id, of0, sys, alloc, p, of) && of0.err == 0 && !of0.isDir && of0.fd == NO_FD
    requires f.fd != NO_FD && f.err == 0 && !f.isDir && Kept(sys, f.uniq) && (sys.open.Opened? ==> sys.open.fd != NO_FD)
    ensures sys.stat.Stated? && sys.stat.stat.uniq == f.uniq ==>
      of.fd == f.fd && of.err == 0 && Tells(of, sys.stat.stat) && of.isDirectio == f.isDirectio && name in c.tree
    ensures sys.stat.Stated? && sys.stat.stat.uniq != f.uniq && sys.open.Opened? && !sys.open.stat.isDir ==>
      of.fd == sys.open.fd && of.err == 0 && Tells(of, sys.open.stat)
    ensures sys.stat.StatFailed? ==>
      of.fd == NO_FD && of.err == sys.stat.errno && (of.err == 0 || !of0.errors ==> name !in c.tree)
  {
  }

  predicate Among(sys: System, uniq: int) {
    (sys.stat.Stated? && uniq == sys.stat.stat.uniq) || (sys.open.Opened? && uniq == sys.open.stat.uniq)
  }

  /** A usable answer is an error, a directory or an open file, and the file is one the system spoke of. */
  ghost predicate Shapely(of: OpenInfo, sys: System) {
    (of.err != 0 || of.isDir <==> of.fd == NO_FD) && (of.fd != NO_FD ==> Among(sys, of.uniq))
  }

  lemma AnswerShape(q: OpenInfo, sys: System)
    requires q.err == 0 && !q.isDir && (q.fd != NO_FD ==> Kept(sys, q.uniq))
    requires sys.open.Opened? ==> sys.open.fd != NO_FD
    requires !Unusable(OpenStat(q, sys).0, OpenStat(q, sys).1)
    ensures Shapely(OpenStat(q, sys).1, sys)
  {
  }

  lemma StaleShape(c: Cache, name: Name, f: File, id: Ptr, of0: OpenInfo, sys: System, alloc: bool, p: Ptr,
                   of: OpenInfo)
    requires c.Stale(name, f, id, of0, sys, alloc, p, of) && name in c.tree && of0.err == 0 && !of0.isDir
    requires of0.fd == NO_FD && (f.fd != NO_FD ==> Kept(sys, f.uniq)) && (sys.open.Opened? ==> sys.open.fd != NO_FD)
    ensures Shapely(of, sys)
  {
    hide OpenStat, Kept, Cache.Placed;
    AnswerShape(Question(f, of0), sys);
  }

  lemma HonestFd(sys: System, fds: set<int>)
    requires Honest(sys, fds)
    ensures sys.open.Opened? ==> sys.open.fd != NO_FD
  {
  }

  lemma AnsweredNow(c: Cache, name: Name, before: multiset<Ptr>, rc: Rc, of: OpenInfo, now: int)
    requires c.Outcome(name, before, rc, of, now) && name in c.tree
    ensures c.Answered(c.tree[name], of, now)
  {
  }

  /** A system that hands out descriptors that are not open, whichever are. */
  ghost predicate Kernel(kernel: set<int> -> System) {
    forall fds :: Honest(kernel(fds), fds)
  }

  /** Files that the first answers speak of do not become directories while they are open. */
  ghost predicate StayFiles(kernel: set<int> -> System, sys: System) {
    forall fds, u :: Among(sys, u) ==> Kept(kernel(fds), u)
  }

  /**
    Two calls for one name.  The first asks the system; the second gets the same answer without asking
    while it is valid, and the system's new answer afterwards.
   */
  method OpenTwice(c: Cache, name: Name, ask: OpenInfo, sys: System, since: int, p: Ptr, junk: File,
                   again: OpenInfo, kernel: set<int> -> System, now: int)
      returns (told: OpenInfo, rc: Rc, of: OpenInfo, cached: bool)
    requires c.Valid() && Honest(sys, c.fds) && p !in c.files && !ask.isDir && !again.isDir
    requires name in c.tree ==> c.tree[name] in c.files && !Fresh(c.files[c.tree[name]], c.Asked(ask), since)
    requires name in c.tree && c.files[c.tree[name]].fd != NO_FD ==> Kept(sys, c.files[c.tree[name]].uniq)
    requires Kernel(kernel) && StayFiles(kernel, sys)
    modifies c
    ensures c.Valid()
    ensures cached && Serves(told, again) && now - since < again.valid ==>
      SameAnswer(of, told) && rc == (if told.err == 0 then OK else ERROR)
    ensures cached && Serves(told, again) && now - since >= again.valid && name in c.tree ==>
      c.Taken(c.tree[name], of, now)
    ensures name !in old(c.tree) ==>
      told == OpenStat(c.Asked(ask), sys).1 && (cached <==> !Unusable(OpenStat(c.Asked(ask), sys).0, told))
  {
    hide Cache.ValidBut, Cache.Stale, KeepsUsed, Spares, OpenStat, LostTo, Honest, Kept, Fresh, Cache.Answered,
      Cache.Taken, Cache.Outcome, Among;
    ghost var known, cleanups, fds := name in c.tree, c.cleanups, c.fds;
    ghost var f, id := if known then c.files[c.tree[name]] else junk, if known then c.tree[name] else p;
    rc, told := c.Open(name, ask, sys, since, true, true, p, junk);
    cached := name in c.tree;
    of := told;
    if cached && Serves(told, again) {
      AnsweredNow(c, name, cleanups, rc, told, since);
      HonestFd(sys, fds);
      if known {
        StaleShape(c, name, f, id, c.Asked(ask), sys, true, p, told);
      } else {
        AnswerShape(c.Asked(ask), sys);
      }
      assert told.fd != NO_FD ==> Kept(kernel(c.fds), told.uniq);
      rc, of := OpenAgain(c, name, told, since, since, again, kernel(c.fds), now, false, p, junk);
    }
  }

  /** What the two calls below ask and are told. */
  function RaceAsk(info: Info): OpenInfo {
    OpenInfo(NO_FD, 0, 0, false, false, info, 60, 1, 0, info.size + 1, false, false)
  }

  function Found(seen: int, again: int, fd: int, info: Info): System {
    System(Stated(Stat(seen, false, info)), Opened(fd, Stat(again, false, info)), false)
  }

  lemma RaceFacts(info: Info, f: File, fds: set<int>)
    requires f.fd == 5 && f.uniq == 7 && fds <= {5}
    ensures var of := RaceAsk(info);
      && !of.isDir && Honest(Found(7, 7, 5, info), {}) && Honest(Found(8, 7, 6, info), fds)
      && OpenStat(of, Found(7, 7, 5, info)) == (OK, of.(fd := 5, uniq := 7))
      && !Fresh(f, of.(uniq := 9), 1) && Kept(Found(8, 7, 6, info), 7) && LostTo(f, Found(8, 7, 6, info)) == {5}
  {
  }

  /**
    The race, run: a cache knows the file 7 by descriptor 5.  A caller that expects another identity
    makes it retest; stat() finds file 8 under the name, but open() finds file 7 again, as descriptor
    6.  From then on descriptor 5 is open and no entry has it.
   */
  method RaceLosesDescriptor(info: Info, name: Name, p: Ptr, junk: File) returns (c: Cache)
    ensures fresh(c) && c.Valid()
    ensures 5 in c.fds && forall id :: id in c.files ==> c.files[id].fd != 5
  {
    hide Cache.ValidBut, Cache.Outcome, Spares, KeepsUsed, OpenStat, Fresh, Honest, Kept, LostTo;
    c := new Cache(1, 60);
    ghost var before := c.cleanups;
    RaceFacts(info, junk.(fd := 5, uniq := 7), {});
    var rc, of := c.Open(name, RaceAsk(info), Found(7, 7, 5, info), 0, true, true, p, junk);
    c.HoldsAnswer(name, before, rc, of, 0);
    assert c.fds <= {5};
    RaceFacts(info, c.files[c.tree[name]], c.fds);
    rc, of := c.Open(name, RaceAsk(info).(uniq := 9), Found(8, 7, 6, info), 1, true, false, p, junk);
    c.LostIsOpen(5);
  }
}
