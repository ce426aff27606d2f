# Verified models of nginx 1.10.0

Dafny models of the data structures and protocols at the core of nginx 1.10.0, with proofs of what
each is for. `dafny verify dfyconfig.toml` checks everything.

| file | models | main results |
|---|---|---|
| `HashTable.dfy` | `ngx_hash_init`, `ngx_hash_find` | the packed bytes are a map; the size chosen is the least of all that fit |
| `WildcardHash.dfy` | `ngx_hash_wildcard_init`, the wildcard searches | the tagged trie, whose levels are packed hashes, answers with the most specific name |
| `HashKeys.dfy` | `ngx_hash_add_key` | labels are reversed; names added one by one, sorted, built into tries of packed hashes and searched give the longest pattern, heads before tails |
| `OpenFileCache.dfy` | the cache of open descriptors | tree, queue, counters, cleanups and descriptors agree; nothing is closed twice or freed in use; which race loses a descriptor |
| `HttpFileCache.dfy` | the shared cache's nodes under interleaved processes | no node is freed while a request or a deleter refers to it; the queue is ordered by expiry; what every lookup answers after any run |
| `RadixTree.dfy` | 32-bit and 128-bit radix trees | every operation refines a prefix map with longest match; when a deletion follows NULL |
| `OutputChain.dfy` | the output chain | the byte stream and the special bufs are kept, the filter gets only bufs it can use, buffers are bounded, every call ends |
| `ResolverNames.dfy` | names in DNS messages | decoding inverts encoding, exactly for the names it does so for |
| `SrvReport.dfy`, `AddrExport.dfy` | the order of reported addresses | every address once, by priority, from the target that the random number picks, each by its share; rotation is a permutation |
| `ConsistentHash.dfy`, `ChashPeers.dfy` | the ketama balancer | removal moves only its own keys; the weighted choice is exactly fair |
| `Queue.dfy` | the intrusive queue | link surgery, middle, stable sort |
| `Md5.dfy` | MD5 | the digest does not depend on how a message is split; padding and block function are those of RFC 1321 |
| `HttpTime.dfy` | date parsing | Gauss' formula counts days, exactly outside January and February of year 0; the three formats agree |
| `RwLock.dfy` | the spinning rwlock | the word says who holds the lock, for any number of threads |
| `Pool.dfy`, `PoolArray.dfy` | pools and arrays | allocations never overlap; pushing appends and touches nothing else |
| `Octets.dfy`, `LruQueue.dfy`, `Wrappers.dfy` | shared notions | bytes, labels; queues as sequences; results |

## How the models are built

Objects that the C code changes in place are classes whose methods reassign fields or arrays, and
each method is proved against a function or predicate of the old state. Memory that holds linked
nodes is an explicit map from addresses to records, so that freeing a node, following a dangling
pointer or closing a descriptor twice is a failed precondition. What the operating system, the
allocator, the next filter or a random generator answers is a parameter or an arbitrary function, so
that the results hold for every answer. Concurrent protocols (the shared cache, the rwlock) are step
systems, and the theorems are about every run.

## Where the code falls short of its promise

Each of these has its exact condition, for all inputs; a member that shows it on an input is named in
brackets.

* `HttpTime.GaussIsCountingIff`: the formula counts days for every accepted date but those in January
  and February of year 0, where the unsigned year wraps (`HttpTime.YearZeroWraps`).
* `ResolverNames.QueryRoundTrip`: the encoder takes labels up to 255 bytes, but a name comes back
  only if it has at most 127 labels of at most 63 bytes (`ResolverNames.LongLabelIsLost`).
* `ResolverNames.CopyName`: the second decoding pass stays in the room that the first has counted exactly
  if the last label is followed by its zero byte itself and not by a pointer to one; otherwise it
  writes one byte more (`ResolverNames.OneByteTooMany`). The byte after the response is read exactly if
  the way through the message comes upon a pointer that starts at the last byte
  (`ResolverNames.ReadsBeyond`).
* `HashKeys.ByteBehind`: the byte after a name decides whether it is taken exactly if the name is good
  otherwise and ends with a dot.
* `OpenFileCache.Cache.Open`: a retest loses the entry's descriptor, which stays open for good, exactly
  if the path changes between stat() and open() from another file back to the entry's own
  (`OpenFileCache.RaceLosesDescriptor` runs into it from an empty cache).
* `Pool.RoomIsRight`: the unsigned test for room is right for every size exactly if aligning does not
  pass the end of the block (`Pool.RoomPastTheEnd`), as with blocks that end at aligned addresses.
* `OutputChain.Ctx.CopyBuf`: the buffer has the source's `flush`, `last_buf` and `last_in_chain` exactly if
  the copy uses up the source or the buffer's old flags happen to agree (`OutputChain.StaleFlush`).
* `RadixTree.Tree.Find128`: the search reads the byte after the address exactly if the tree has a node
  for the full address (`RadixTree.FullAddressOverruns`); the answer does not depend on that byte.
* `RadixTree.Tree.Delete32`, `RadixTree.Tree.Delete128`: a deletion follows NULL exactly if the mask is
  empty and the root has no children, as in a new tree (`RadixTree.EmptyTreeCrashes`).
* `SrvReport.ReadSrvs`: records are in order of priority exactly if they were in order already or the
  sort got its memory; otherwise priorities may go down in the report (`SrvReport.UnsortedReport`).

## Model

| member | source | states |
|---|---|---|
| HashTable.ReadStrideIsWriteStride | nginx-1.10.0/src/core/ngx_hash.c:43-44 | the step of the search from an aligned element is the size the writer used |
| HashTable.EltSizeIs | nginx-1.10.0/src/core/ngx_hash.c:248-249 | an element takes a pointer, two bytes and the name, rounded up to the next multiple of a pointer |
| HashTable.LookupIsTheMap | nginx-1.10.0/src/core/ngx_hash.c:12-49 | with distinct names every stored name has its own value and all others have none |
| HashTable.PlacesDisjoint | nginx-1.10.0/src/core/ngx_hash.c:400-414 | no two elements overlap |
| HashTable.PlaceFits | nginx-1.10.0/src/core/ngx_hash.c:334-357 | an element lies in its bucket, before the bucket's NULL, which has room too, inside the block |
| HashTable.SentinelDisjoint | nginx-1.10.0/src/core/ngx_hash.c:416-424 | no element overlaps the NULL that ends a bucket |
| HashTable.TerminatedNext | nginx-1.10.0/src/core/ngx_hash.c:416-424 | ending one bucket keeps all elements and all ends before it |
| HashTable.StoredNext | nginx-1.10.0/src/core/ngx_hash.c:400-414 | writing one element keeps those before it |
| HashTable.Hash.Find | nginx-1.10.0/src/core/ngx_hash.c:12-49 | on a packed block, the value stored for the name, present or absent |
| HashTable.Hash.SameName | nginx-1.10.0/src/core/ngx_hash.c:33-37 | true exactly if the stored bytes are the name |
| HashTable.TrySize | nginx-1.10.0/src/core/ngx_hash.c:295-316 | true exactly if no bucket gets more than its room |
| HashTable.ChooseSize | nginx-1.10.0/src/core/ngx_hash.c:284-330 | the least size from the start on whose buckets all fit, or else the maximum |
| HashTable.ChosenIsLeast | nginx-1.10.0/src/core/ngx_hash.c:284-330 | it is the least of all sizes that fit, as no size below the start can, unless the start was set near a large maximum |
| HashTable.Measure | nginx-1.10.0/src/core/ngx_hash.c:334-345 | the sum of each bucket with its NULL |
| HashTable.RoundUp | nginx-1.10.0/src/core/ngx_hash.c:347-357 | buckets rounded up to cache lines, and their total |
| HashTable.PlaceBuckets | nginx-1.10.0/src/core/ngx_hash.c:386-394 | each bucket starts where those before it end; empty ones are NULL |
| HashTable.StoreElt | nginx-1.10.0/src/core/ngx_hash.c:405-411 | value, length and lower-cased name are there, and no other byte changed |
| HashTable.WriteElements | nginx-1.10.0/src/core/ngx_hash.c:396-414 | every key is stored in its place |
| HashTable.Terminate | nginx-1.10.0/src/core/ngx_hash.c:416-424 | every bucket ends with NULL and every key is still stored |
| HashTable.Init | nginx-1.10.0/src/core/ngx_hash.c:251-462 | fails exactly for a zero limit, a name that does not fit or a failed allocation; otherwise the block holds the keys, in the size that was to be chosen |
| WildcardHash.RevJoin | nginx-1.10.0/src/core/ngx_hash.c:883-915 | reversing the labels of a.b gives reversed b, a dot, reversed a |
| WildcardHash.RevTwice | nginx-1.10.0/src/core/ngx_hash.c:883-915 | reversing labels twice gives the name back |
| WildcardHash.HeadPattern | nginx-1.10.0/src/core/ngx_hash.c:885-888 | a stored name matches a reversed host exactly if the host ends with a dot and the base, or is the base for the form without star |
| WildcardHash.ReadTags | nginx-1.10.0/src/core/ngx_hash.c:90-137 | what the two low bits of a value say of the names below a label |
| WildcardHash.Down | nginx-1.10.0/src/core/ngx_hash.c:116-125 | the answer below a label, or else the label's own value, is the most specific of all |
| WildcardHash.Here | nginx-1.10.0/src/core/ngx_hash.c:101-139 | the answer where the host ends or no name goes on |
| WildcardHash.NoLabel | nginx-1.10.0/src/core/ngx_hash.c:142-142 | without the label only the level's own wildcard is left |
| WildcardHash.LevelSearch | nginx-1.10.0/src/core/ngx_hash.c:82-82 | the keys of a level meet what the packed search asks for |
| WildcardHash.HashIsPolynomial | nginx-1.10.0/src/core/ngx_hash.c:611-622 | the hash is a polynomial in 31, modulo the size of a word |
| WildcardHash.Between | nginx-1.10.0/src/core/ngx_hash.c:546-556 | in the order names are sorted in, dot lowest, names of one first label are neighbours |
| WildcardHash.GroupEnds | nginx-1.10.0/src/core/ngx_hash.c:546-556 | names after a group have another first label |
| WildcardHash.GroupSub | nginx-1.10.0/src/core/ngx_hash.c:529-572 | what a group passes on is in order again and is exactly what follows the label |
| WildcardHash.GroupOwn | nginx-1.10.0/src/core/ngx_hash.c:588-590 | only the first name of a group can be the label's own |
| WildcardHash.GroupEntry | nginx-1.10.0/src/core/ngx_hash.c:574-596 | the tagged value given to a label is the one it should have |
| WildcardHash.Trie.Pack | nginx-1.10.0/src/core/ngx_hash.c:598-604 | a level's keys become a packed hash that holds them |
| WildcardHash.Trie.Enter | nginx-1.10.0/src/core/ngx_hash.c:598-604 | a new level with its hash, all older ones kept |
| WildcardHash.Gather | nginx-1.10.0/src/core/ngx_hash.c:521-572 | the loop takes exactly the names of one label, cut behind it |
| WildcardHash.Trie.BuildEntry | nginx-1.10.0/src/core/ngx_hash.c:490-597 | one label's entry, with its hash built below it, and all older levels kept; fails only if some level is refused |
| WildcardHash.Trie.WildcardInit | nginx-1.10.0/src/core/ngx_hash.c:465-607 | a valid trie of packed hashes for exactly the given names, without changing older levels; fails only if some level does not fit or gets no memory |
| WildcardHash.Trie.FindHead | nginx-1.10.0/src/core/ngx_hash.c:52-143 | by searching the packed hashes, the value of the most specific name that matches the host, NULL or the level's own value if none does |
| WildcardHash.Trie.FindTail | nginx-1.10.0/src/core/ngx_hash.c:146-207 | the same for names that end with a star |
| WildcardHash.FindCombined | nginx-1.10.0/src/core/ngx_hash.c:210-245 | the exact name's value, or else the best head wildcard's, or else the best tail wildcard's |
| HashKeys.KindOf | nginx-1.10.0/src/core/ngx_hash.c:726-774 | what each kind of name guarantees to the steps that follow |
| HashKeys.KindIs | nginx-1.10.0/src/core/ngx_hash.c:726-774 | exactly which names are of which kind, by their shape: .b, *.b, b.* or no star; with two stars, a NUL or an empty label none is |
| HashKeys.ByteBehind | nginx-1.10.0/src/core/ngx_hash.c:743-745 | exactly when the byte after a name makes a difference |
| HashKeys.Classify | nginx-1.10.0/src/core/ngx_hash.c:733-774 | the loop finds the kind of a name, with the byte after it read as the loop does |
| HashKeys.Reverse | nginx-1.10.0/src/core/ngx_hash.c:883-915 | the loop reverses the labels, with a dot at the end for a star, inside its buffer |
| HashKeys.Keys.AddHead | nginx-1.10.0/src/core/ngx_hash.c:832-988 | busy exactly if the base is known; otherwise the reversed name is added |
| HashKeys.Keys.AddTail | nginx-1.10.0/src/core/ngx_hash.c:920-988 | busy exactly if known; otherwise the name without its star is added |
| HashKeys.Keys.AddKey | nginx-1.10.0/src/core/ngx_hash.c:713-989 | which list grows by what, which names are known afterwards, and when a name is declined or busy; a name that was added is busy from then on |
| HashKeys.AddWritten | nginx-1.10.0/src/core/ngx_hash.c:713-989 | b, .b, *.b and b.* are taken unless they are known, and the value is then the pattern's, the tail's or the exact name's |
| HashKeys.Keys.HeadsApart | nginx-1.10.0/src/core/ngx_hash.c:938-960 | no two stored names are equal or differ by a final dot, as the trie needs |
| HashKeys.SearchFindsPattern | nginx-1.10.0/src/core/ngx_hash.c:52-143 | what the trie finds is the value of the longest pattern, as written, that stands for the host |
| HashKeys.HeadsListed | nginx-1.10.0/src/core/ngx_hash.c:465-556 | the added heads, sorted by ngx_dns_strcmp, are as ngx_hash_wildcard_init wants them |
| HashKeys.TailsListed | nginx-1.10.0/src/core/ngx_hash.c:465-556 | so are the added tails, none of which ends with a dot |
| HashKeys.HeadsHold | nginx-1.10.0/src/core/ngx_hash.c:938-989 | and they hold exactly the added patterns with their values |
| HashKeys.SearchFindsTail | nginx-1.10.0/src/core/ngx_hash.c:146-207 | what the tails' trie finds is the value of the longest added tail that the host begins with |
| HashKeys.FindAdded | nginx-1.10.0/src/core/ngx_hash.c:52-989 | wildcard names added, sorted, built into tries of packed hashes and searched for a host: the exact name's value, or the longest head's, or the longest tail's |
| OpenFileCache.UnchangedKeepsDescriptor | nginx-1.10.0/src/core/ngx_open_file_cache.c:840-951 | a retest that finds the identity unchanged hands on the old descriptor exactly if there was no race |
| OpenFileCache.AnswerIsTheSystems | nginx-1.10.0/src/core/ngx_open_file_cache.c:840-951 | the answer is what stat() or fstat() has said last, or the failed call's error |
| OpenFileCache.NeverBoth | nginx-1.10.0/src/core/ngx_open_file_cache.c:845-858 | what the model takes the system at its word for: an answer is a directory with a descriptor exactly if an open file's identity has become a directory's |
| OpenFileCache.RaceLosesDescriptor | nginx-1.10.0/src/core/ngx_open_file_cache.c:144-486 | two calls on an empty cache after which a descriptor is open that no entry has |
| OpenFileCache.DropAllKeepsUsed | nginx-1.10.0/src/core/ngx_open_file_cache.c:1130-1140 | dropping entries from the queue frees none that has users |
| OpenFileCache.Cache.CloseFd | nginx-1.10.0/src/core/ngx_open_file_cache.c:1060-1068 | only an open descriptor is closed |
| OpenFileCache.Cache.CloseCached | nginx-1.10.0/src/core/ngx_open_file_cache.c:1032-1074 | a member moves to the head of the queue and may lose its descriptor; others are closed and freed without users; the invariant holds again |
| OpenFileCache.Cache.Expire | nginx-1.10.0/src/core/ngx_open_file_cache.c:1095-1142 | which entries at the end of the queue go: one whatever its age, and up to two that were idle too long |
| OpenFileCache.Cache.Cleanup | nginx-1.10.0/src/core/ngx_open_file_cache.c:1018-1028 | one cleanup less, and exactly the release and the expiry that follow |
| OpenFileCache.Cache.OpenAndStat | nginx-1.10.0/src/core/ngx_open_file_cache.c:840-951 | the answer, and the one descriptor that may be opened |
| OpenFileCache.Cache.Update | nginx-1.10.0/src/core/ngx_open_file_cache.c:393-425 | the entry holds the answer, when it was given and how it was asked for, with its user counted; a descriptor that is written over is lost |
| OpenFileCache.Cache.Hit | nginx-1.10.0/src/core/ngx_open_file_cache.c:229-268 | a cached answer is returned without asking the system |
| OpenFileCache.Cache.Detach | nginx-1.10.0/src/core/ngx_open_file_cache.c:327-347 | an entry in use leaves tree and queue and is closed by its last user |
| OpenFileCache.Cache.Retest | nginx-1.10.0/src/core/ngx_open_file_cache.c:280-347 | what is told and which entry holds it, for every answer of the system: kept, replaced or forgotten; its descriptor is lost exactly in a race |
| OpenFileCache.Cache.Create | nginx-1.10.0/src/core/ngx_open_file_cache.c:352-391 | a new entry, after making room |
| OpenFileCache.Cache.MakeRoom | nginx-1.10.0/src/core/ngx_open_file_cache.c:360-364 | below the maximum again |
| OpenFileCache.Cache.Open | nginx-1.10.0/src/core/ngx_open_file_cache.c:144-486 | the invariant between operations, no used entry lost, other names spared, at most one descriptor more, which is lost exactly when; and for unknown, fresh and stale names exactly what the caller is told and which entry holds the name from then on |
| OpenFileCache.OpenAgain | nginx-1.10.0/src/core/ngx_open_file_cache.c:229-486 | a name that was answered gets the same answer without a system call exactly while that is valid, and then the system's: the same descriptor for an unchanged file, a new one for another, or the error |
| OpenFileCache.StaleTells | nginx-1.10.0/src/core/ngx_open_file_cache.c:277-347 | what is told of a file that is still there, was replaced or is gone |
| OpenFileCache.OpenTwice | nginx-1.10.0/src/core/ngx_open_file_cache.c:144-486 | two calls for one name, from any state of the cache and with any system |
| OpenFileCache.Cache.LostIsOpen | nginx-1.10.0/src/core/ngx_open_file_cache.c:393-395 | a lost descriptor stays open and belongs to no entry |
| HttpFileCache.InspectEffect | nginx-1.10.0/src/http/ngx_http_file_cache.c:826-852 | what finding a node does to its counter; LookupSays has what it tells |
| HttpFileCache.FoundKeepsInv | nginx-1.10.0/src/http/ngx_http_file_cache.c:815-924 | finding a node keeps counters, index and order, whatever it tells |
| HttpFileCache.NewKeepsInv | nginx-1.10.0/src/http/ngx_http_file_cache.c:866-924 | so does making one |
| HttpFileCache.HoldingKeepsInv | nginx-1.10.0/src/http/ngx_http_file_cache.c:1203-1419 | so do reopening, switching variants, updating, locking and reading |
| HttpFileCache.FreeKeepsInv | nginx-1.10.0/src/http/ngx_http_file_cache.c:1606-1667 | so does a request's release, which may free the node |
| HttpFileCache.BeginKeepsInv | nginx-1.10.0/src/http/ngx_http_file_cache.c:1849-1873 | so does starting to delete, which unlocks the mutex with the node counted once more |
| HttpFileCache.FinishKeepsInv | nginx-1.10.0/src/http/ngx_http_file_cache.c:1885-1896 | so does ending it, which frees the node if nobody came in between |
| HttpFileCache.AddKeepsInv | nginx-1.10.0/src/http/ngx_http_file_cache.c:2097-2148 | so does the loader |
| HttpFileCache.PostponeKeepsInv | nginx-1.10.0/src/http/ngx_http_file_cache.c:1820-1838 | so does moving a used node to the head of the queue |
| HttpFileCache.StepIsSafe | nginx-1.10.0/src/http/ngx_http_file_cache.c:814-1896 | no step, be it a lookup, a deletion, an expiry or the loader's, follows a pointer to a node that was freed |
| HttpFileCache.StepKeepsInv | nginx-1.10.0/src/http/ngx_http_file_cache.c:814-2148 | every step of every process keeps the whole invariant |
| HttpFileCache.RunsAreSafe | nginx-1.10.0/src/http/ngx_http_file_cache.c:814-2148 | every interleaving from a good state is safe and ends in one |
| HttpFileCache.RunsFromTheStart | nginx-1.10.0/src/http/ngx_http_file_cache.c:83-171 | so is every interleaving from an empty cache |
| HttpFileCache.LookupSays | nginx-1.10.0/src/http/ngx_http_file_cache.c:826-924 | what a lookup tells: a cached file with its identity, an unripe key to come again, a cached error until its time is over, and then the node made anew |
| HttpFileCache.StepLeaves | nginx-1.10.0/src/http/ngx_http_file_cache.c:814-2148 | which steps change what a node says of its file; all others leave it, and only new visitors count as uses |
| HttpFileCache.AnswerAfterRun | nginx-1.10.0/src/http/ngx_http_file_cache.c:814-2148 | the answer of a lookup after any run that left the node alone |
| HttpFileCache.UpdateStores | nginx-1.10.0/src/http/ngx_http_file_cache.c:1345-1419 | a fetched file leaves its identity and where its body starts |
| HttpFileCache.FetchedIsServed | nginx-1.10.0/src/http/ngx_http_file_cache.c:826-1419 | and is served with them from then on |
| HttpFileCache.NewIsDeclined | nginx-1.10.0/src/http/ngx_http_file_cache.c:866-924 | an unknown key is declined, and its node has been asked for once |
| HttpFileCache.SoughtOftenEnough | nginx-1.10.0/src/http/ngx_http_file_cache.c:846-924 | a new key is put off exactly until it has been asked for min_uses times |
| HttpFileCache.FreeStores | nginx-1.10.0/src/http/ngx_http_file_cache.c:1606-1648 | a request that ends with an error leaves it to the node |
| HttpFileCache.LoaderStores | nginx-1.10.0/src/http/ngx_http_file_cache.c:2097-2148 | what the loader's nodes and files found while it is at work say |
| HttpFileCache.LockIsOne | nginx-1.10.0/src/http/ngx_http_file_cache.c:401-450 | the right to fill a node goes to one request at a time |
| HttpFileCache.TurnsTo | nginx-1.10.0/src/http/ngx_http_file_cache.c:1203-1243 | a request that turns to a variant or back looks for that key with no node in hand |
| HttpFileCache.FreedExactly | nginx-1.10.0/src/http/ngx_http_file_cache.c:1606-1896 | exactly when a step frees a node |
| HttpFileCache.BeginMarks | nginx-1.10.0/src/http/ngx_http_file_cache.c:1849-1873 | a deletion of a cached file marks and counts, and only a node that is due or forced out is deleted |
| HttpFileCache.PostponeMoves | nginx-1.10.0/src/http/ngx_http_file_cache.c:1820-1838 | a node in use goes back to the head with a full span of time |
| HttpFileCache.FreedByItsLastUser | nginx-1.10.0/src/http/ngx_http_file_cache.c:1640-1648 | a step that frees a node is that of the last request or deleter that referred to it |
| HttpFileCache.NothingIsOverdue | nginx-1.10.0/src/http/ngx_http_file_cache.c:1782-1800 | when the last node of the queue is not past its time, none is |
| HttpFileCache.ForcedVictimIsOldest | nginx-1.10.0/src/http/ngx_http_file_cache.c:1692-1751 | a forced expiry takes the unused node nearest the end of the queue |
| RadixTree.StepBit32 | nginx-1.10.0/src/core/ngx_radix_tree.c:118-134 | masking and shifting visits one bit after the other |
| RadixTree.Bits32AreDigits | nginx-1.10.0/src/core/ngx_radix_tree.c:111-134 | and these are the binary digits of the word, most significant first |
| RadixTree.StepBit128 | nginx-1.10.0/src/core/ngx_radix_tree.c:281-307 | so does masking, shifting and stepping over bytes |
| RadixTree.Bits128AreDigits | nginx-1.10.0/src/core/ngx_radix_tree.c:272-307 | and these are the binary digits of the bytes |
| RadixTree.LongestMatchIsLongest | nginx-1.10.0/src/core/ngx_radix_tree.c:229-263 | the longest match is the value of the longest stored prefix of the key, and no value if none is stored |
| RadixTree.ShapedAfterLink | nginx-1.10.0/src/core/ngx_radix_tree.c:144-166 | hanging a new node below an empty side keeps the trie |
| RadixTree.ShapedAfterUnlink | nginx-1.10.0/src/core/ngx_radix_tree.c:203-233 | taking a leaf out keeps the trie |
| RadixTree.Tree.Alloc | nginx-1.10.0/src/core/ngx_radix_tree.c:463-488 | a recycled or new node, in neither the tree nor the free list, and one less to be had; NULL exactly if nothing is left |
| RadixTree.MissingFrom | nginx-1.10.0/src/core/ngx_radix_tree.c:144-166 | how many nodes an insertion needs: those of the path that are not in the tree |
| RadixTree.Tree.Insert32 | nginx-1.10.0/src/core/ngx_radix_tree.c:108-170 | BUSY exactly if the prefix is present, ERROR exactly if fewer nodes can be had than its path lacks, and then nothing changes in the map; otherwise it is added, for exactly those nodes |
| RadixTree.Tree.Insert128 | nginx-1.10.0/src/core/ngx_radix_tree.c:268-348 | the same on 128 bits |
| RadixTree.Tree.Prune | nginx-1.10.0/src/core/ngx_radix_tree.c:203-233 | exactly those nodes go that are needed for no other prefix, and they can be had again |
| RadixTree.Tree.Delete32 | nginx-1.10.0/src/core/ngx_radix_tree.c:173-233 | exactly the prefix goes, with exactly the nodes that are needed for nothing else; OK if it was stored or had a bare leaf; NULL is followed exactly if the mask is empty and the root has no children |
| RadixTree.Tree.Delete128 | nginx-1.10.0/src/core/ngx_radix_tree.c:351-419 | the same on 128 bits |
| RadixTree.Tree.StoredBelowRoot | nginx-1.10.0/src/core/ngx_radix_tree.c:203-233 | while any longer prefix is stored no deletion follows NULL |
| RadixTree.EmptyTreeCrashes | nginx-1.10.0/src/core/ngx_radix_tree.c:28-233 | a new tree, and the deletion that follows NULL in it |
| RadixTree.Tree.Find32 | nginx-1.10.0/src/core/ngx_radix_tree.c:236-263 | the value of the longest stored prefix |
| RadixTree.Tree.Find128 | nginx-1.10.0/src/core/ngx_radix_tree.c:424-458 | the same on 128 bits, and exactly when the byte after the address is read |
| RadixTree.FullAddressOverruns | nginx-1.10.0/src/core/ngx_radix_tree.c:268-458 | two pages have room for a full address, and looking it up reads the byte after it |
| OutputChain.CopySplits | nginx-1.10.0/src/core/ngx_output_chain.c:501-652 | a copy splits the source's bytes between the buffer and the rest of the source |
| OutputChain.CopyKeepsTwins | nginx-1.10.0/src/core/ngx_output_chain.c:526-552 | a copy that may be sent from a file names the bytes it has in memory, and so does the rest of the source |
| OutputChain.NoneLostCopy | nginx-1.10.0/src/core/ngx_output_chain.c:559-652 | a copy carries the source's flags when it uses it up, and until then the source keeps them |
| OutputChain.Ctx.AsIs | nginx-1.10.0/src/core/ngx_output_chain.c:227-281 | which bufs need no copy, and that bytes and flags stay |
| OutputChain.Ctx.CopyBuf | nginx-1.10.0/src/core/ngx_output_chain.c:501-652 | how many bytes move, that none is lost, and exactly when the buffer has the source's flags |
| OutputChain.StaleFlush | nginx-1.10.0/src/core/ngx_output_chain.c:526-559 | a buffer that is used again goes out with the flag it had before |
| OutputChain.Ctx.GetBuf | nginx-1.10.0/src/core/ngx_output_chain.c:425-498 | an empty buffer of the configured size, or of the last buf's when that is small |
| OutputChain.Ctx.UpdateChains | nginx-1.10.0/src/core/ngx_output_chain.c:220-222 | sent buffers come back empty, none is lost, and the first busy buf is not sent yet |
| OutputChain.Ctx.Round | nginx-1.10.0/src/core/ngx_output_chain.c:98-203 | one round keeps the bytes, the special bufs and the flags, gives only bufs that the filter can use, copies only what it cannot, and gets smaller or stops for want of a buffer |
| OutputChain.Ctx.Drive | nginx-1.10.0/src/core/ngx_output_chain.c:86-223 | the outer loop ends for every filter, keeps bytes, signs and buffers, fails exactly when the last question to the world was answered badly, and hands on the filter's last answer |
| OutputChain.Ctx.Run | nginx-1.10.0/src/core/ngx_output_chain.c:45-224 | bytes handed on and bytes left are the old bytes and the new ones, and no special buf or flag is lost; every buf handed on is special or one the filter can use, and none is copied if all are; at most bufs.num buffers; ERROR exactly if an allocation, a read or the filter failed just before, AGAIN with input left only if all buffers are busy, and else the filter's last answer |
| OutputChain.NothingFails | nginx-1.10.0/src/core/ngx_output_chain.c:45-224 | where the world does not fail, no call does |
| ResolverNames.BadLabel | nginx-1.10.0/src/core/ngx_resolver.c:3700-3713 | a bad label anywhere makes the name bad |
| ResolverNames.WriteName | nginx-1.10.0/src/core/ngx_resolver.c:3685-3716 | writes the encoded name from right to left, exactly if all labels have 1 to 255 bytes |
| ResolverNames.CreateNameQuery | nginx-1.10.0/src/core/ngx_resolver.c:3635-3716 | header, encoded name and question, or declined |
| ResolverNames.QueryFields | nginx-1.10.0/src/core/ngx_resolver.c:3655-3683 | ident, recursion desired, one question for an address of the Internet |
| ResolverNames.PassOne | nginx-1.10.0/src/core/ngx_resolver.c:3955-3988 | succeeds exactly if the name is read within 128 steps inside the message, with its length; says when the byte after the message is read |
| ResolverNames.PointerRoundTrip | nginx-1.10.0/src/core/ngx_resolver.c:3966-3968 | a pointer written for an offset below 0x4000 is read as that offset |
| ResolverNames.PointerStandsFor | nginx-1.10.0/src/core/ngx_resolver.c:3955-3988 | a pointer to a name stands for its labels |
| ResolverNames.LabelStandsFirst | nginx-1.10.0/src/core/ngx_resolver.c:3970-3973 | a label stands before the name behind it |
| ResolverNames.UnreadDoesNotMatter | nginx-1.10.0/src/core/ngx_resolver.c:3964-3980 | if that byte is not read, it makes no difference |
| ResolverNames.ReadsBeyond | nginx-1.10.0/src/core/ngx_resolver.c:3967-3969 | a response for which it does, and is read |
| ResolverNames.PassTwo | nginx-1.10.0/src/core/ngx_resolver.c:4008-4033 | follows the path of the first pass and writes the lower-cased labels |
| ResolverNames.CopyName | nginx-1.10.0/src/core/ngx_resolver.c:3943-4034 | both passes together, for every byte that may follow the response; when that byte is read, and when the copy passes its memory by one byte |
| ResolverNames.PassesAgree | nginx-1.10.0/src/core/ngx_resolver.c:3979-4033 | the exact condition under which the second pass fits the first |
| ResolverNames.OneByteTooMany | nginx-1.10.0/src/core/ngx_resolver.c:3979-4033 | a message whose name passes its memory |
| ResolverNames.ReadEncoded | nginx-1.10.0/src/core/ngx_resolver.c:3685-3716 | an encoded name is read back in one step for each label and one for its end |
| ResolverNames.QueryRoundTrip | nginx-1.10.0/src/core/ngx_resolver.c:3635-4034 | a query's name is read back in lower case exactly if it has at most 127 labels of at most 63 bytes |
| ResolverNames.ThereAndBack | nginx-1.10.0/src/core/ngx_resolver.c:3635-4034 | the code's own round trip: a query is made and its name read back under exactly that condition, within its memory and without reading behind the query |
| ResolverNames.LongLabelIsLost | nginx-1.10.0/src/core/ngx_resolver.c:3700-3980 | a query with a label of 64 bytes is built, and does not come back |
| SrvReport.SortedSame | nginx-1.10.0/src/core/ngx_resolver.c:2814-2815 | sorting keeps the targets |
| SrvReport.SortedOrdered | nginx-1.10.0/src/core/ngx_resolver.c:2814-2815 | and puts them in order of priority |
| SrvReport.Sort | nginx-1.10.0/src/core/ngx_resolver.c:2814-2815 | the loops of ngx_sort, called here: they sort in place by insertion, or do nothing without memory for one element |
| SrvReport.ReadWritten | nginx-1.10.0/src/core/ngx_resolver.c:2792-2796 | priority and weight are two bytes each, the high one first, and a weight of zero is raised to one |
| SrvReport.ReadSrvs | nginx-1.10.0/src/core/ngx_resolver.c:2765-2816 | the targets of all records, each with a weight of at least one, in order exactly if they were or the sort had memory |
| SrvReport.NoShares | nginx-1.10.0/src/core/ngx_resolver.c:4290-4292 | a group without random numbers has no addresses |
| SrvReport.Group | nginx-1.10.0/src/core/ngx_resolver.c:4280-4288 | the targets of one priority and the sum of their shares |
| SrvReport.Pick | nginx-1.10.0/src/core/ngx_resolver.c:4294-4302 | the target whose share the random number falls into, always inside the group |
| SrvReport.PickIsFair | nginx-1.10.0/src/core/ngx_resolver.c:4294-4302 | exactly naddrs * weight random numbers pick a target |
| SrvReport.AddGroup | nginx-1.10.0/src/core/ngx_resolver.c:4304-4318 | all targets of the group once, from the picked one on |
| SrvReport.ReportSrv | nginx-1.10.0/src/core/ngx_resolver.c:4243-4331 | group after group, each from the target on whose share the random number falls into, inside the array; no domain exactly if there is no address |
| SrvReport.ReportedOnce | nginx-1.10.0/src/core/ngx_resolver.c:4279-4324 | the report is a permutation of all targets' addresses |
| SrvReport.ReportedAddrs | nginx-1.10.0/src/core/ngx_resolver.c:4304-4318 | of every target exactly its addresses are reported, each once and in its own order |
| SrvReport.ReportedFields | nginx-1.10.0/src/core/ngx_resolver.c:4304-4318 | with its priority and weight, as many as there are |
| SrvReport.ReportedInOrder | nginx-1.10.0/src/core/ngx_resolver.c:4279-4324 | priorities never go down |
| SrvReport.PickedFirst | nginx-1.10.0/src/core/ngx_resolver.c:4294-4324 | targets of one priority are reported from the picked one on |
| SrvReport.UnsortedReport | nginx-1.10.0/src/core/ngx_resolver.c:2814-4324 | a response whose priorities go down in the report |
| AddrExport.Export | nginx-1.10.0/src/core/ngx_resolver.c:4160-4240 | each family rotated, all rotated, and every address exactly once |
| AddrExport.DrawIsFair | nginx-1.10.0/src/core/ngx_resolver.c:4172-4220 | every place is drawn by one random number in so many |
| ConsistentHash.AddServer | nginx-1.10.0/src/stream/ngx_stream_upstream_hash_module.c:353-374 | a server's points, each made from the one before |
| ConsistentHash.HashesChain | nginx-1.10.0/src/stream/ngx_stream_upstream_hash_module.c:353-374 | the first hash is made from zero, each further one from the one before |
| ConsistentHash.PointsByWeight | nginx-1.10.0/src/stream/ngx_stream_upstream_hash_module.c:353-374 | a server has 160 points for each unit of weight |
| ConsistentHash.Dedupe | nginx-1.10.0/src/stream/ngx_stream_upstream_hash_module.c:382-388 | strictly increasing, only given points, and every given hash |
| ConsistentHash.InitChash | nginx-1.10.0/src/stream/ngx_stream_upstream_hash_module.c:294-392 | the ring of all servers' points |
| ConsistentHash.FindPoint | nginx-1.10.0/src/stream/ngx_stream_upstream_hash_module.c:418-447 | the first point not below the hash, or the number of points |
| ConsistentHash.RemovalMovesOnlyItsKeys | nginx-1.10.0/src/stream/ngx_stream_upstream_hash_module.c:305-447 | without one server every key of another server keeps its owner, if no two of the others share a point |
| ChashPeers.ChoiceKeepsSum | nginx-1.10.0/src/stream/ngx_stream_upstream_hash_module.c:549-564 | a choice among any eligible peers keeps the sum of the current weights |
| ChashPeers.Balancer.Scan | nginx-1.10.0/src/stream/ngx_stream_upstream_hash_module.c:515-560 | eligible peers gain their weight, and the first with the most is found |
| ChashPeers.Recovers | nginx-1.10.0/src/stream/ngx_stream_upstream_hash_module.c:549-555 | a peer gains what it is worth, and recovers by one up to its weight |
| ChashPeers.PassedOver | nginx-1.10.0/src/stream/ngx_stream_upstream_hash_module.c:519-541 | a peer of the server is passed over exactly if it was tried, is down or rests after too many failures |
| ChashPeers.Balancer.GetPeer | nginx-1.10.0/src/stream/ngx_stream_upstream_hash_module.c:480-596 | how far the ring is walked and that all it passes over were tried, down or resting; the peer, which is none of these, and the weights after the choice |
| ChashPeers.BusyMeansNone | nginx-1.10.0/src/stream/ngx_stream_upstream_hash_module.c:508-574 | the first call finds no peer exactly if no server of the ring has an eligible one |
| ChashPeers.NeverTwice | nginx-1.10.0/src/stream/ngx_stream_upstream_hash_module.c:480-596 | a request that calls again gets another peer |
| ChashPeers.RestsAgain | nginx-1.10.0/src/stream/ngx_stream_upstream_hash_module.c:586-590 | a peer that has failed too often and gets a request rests again for its time out |
| ChashPeers.TurnKeepsBalance | nginx-1.10.0/src/stream/ngx_stream_upstream_hash_module.c:549-564 | after t turns a weight is t times its share less its picks, and never a whole round overdrawn |
| ChashPeers.TurnIsDetermined | nginx-1.10.0/src/stream/ngx_stream_upstream_hash_module.c:549-564 | the choice and the weights after it depend on the weights and on who is eligible, on nothing else |
| ChashPeers.ExactlyFair | nginx-1.10.0/src/stream/ngx_stream_upstream_hash_module.c:549-564 | over a whole round each peer is chosen exactly as often as its weight, and all weights are zero again |
| ChashPeers.ServeRound | nginx-1.10.0/src/stream/ngx_stream_upstream_hash_module.c:480-596 | the same of the code's own runs: as many requests for one point as its server's weights have units, at any times, are given out by weight and leave all weights zero |
| Queue.RemoveKeeps | nginx-1.10.0/src/core/ngx_queue.h:66-80 | removing an element leaves the others linked in order |
| Queue.InsertKeeps | nginx-1.10.0/src/core/ngx_queue.h:34-41 | inserting puts one element between two neighbours |
| Queue.QueueSame | nginx-1.10.0/src/core/ngx_queue.h:17-20 | other queues are not touched |
| Queue.Links.InsertTail | nginx-1.10.0/src/core/ngx_queue.h:44-48 | the element is last |
| Queue.Links.Split | nginx-1.10.0/src/core/ngx_queue.h:83-89 | two queues, cut before the element |
| Queue.Links.Add | nginx-1.10.0/src/core/ngx_queue.h:92-96 | the second queue follows the first |
| Queue.Links.Middle | nginx-1.10.0/src/core/ngx_queue.c:17-45 | element floor(n / 2) of n |
| Queue.Links.FindSlot | nginx-1.10.0/src/core/ngx_queue.c:69-76 | behind the last element that does not come after x |
| Queue.Links.Sort | nginx-1.10.0/src/core/ngx_queue.c:50-80 | the queue holds its elements as sorted by insertion |
| Queue.SortIsPermutation | nginx-1.10.0/src/core/ngx_queue.c:50-80 | the sorted elements are the same |
| Queue.SortIsSorted | nginx-1.10.0/src/core/ngx_queue.c:50-80 | in order, for every total preorder |
| Queue.SortIsStable | nginx-1.10.0/src/core/ngx_queue.c:48-80 | elements that are in order, equal ones among them, stay so |
| Md5.RoundFunctionsAreRfc | nginx-1.10.0/src/core/ngx_md5.c:126-127 | the rewritten F and G are those of RFC 1321 on all words |
| Md5.WordOrderIsRfc | nginx-1.10.0/src/core/ngx_md5.c:196-270 | the words of a block are taken in the order of RFC 1321 |
| Md5.StepIsRfc | nginx-1.10.0/src/core/ngx_md5.c:137-140 | each step is the operation of section 3.4 of RFC 1321: function, word, rotation and roles |
| Md5.CompressIsRfc | nginx-1.10.0/src/core/ngx_md5.c:173-287 | a block is processed as that section says |
| Md5.FourBytes | nginx-1.10.0/src/core/ngx_md5.c:157-163 | words are made of bytes low byte first, and back |
| Md5.PaddedIsRfc | nginx-1.10.0/src/core/ngx_md5.c:65-93 | the padding of sections 3.1 and 3.2 |
| Md5.RegistersAreRfc | nginx-1.10.0/src/core/ngx_md5.c:22-31 | the first values of the registers, and how they are written |
| Md5.FoldJoin | nginx-1.10.0/src/core/ngx_md5.c:190-279 | blocks may be processed together or one after the other |
| Md5.Body | nginx-1.10.0/src/core/ngx_md5.c:173-287 | the loop is the fold of the block function |
| Md5.PaddedIs | nginx-1.10.0/src/core/ngx_md5.c:70-93 | the one or two last blocks are the padded message's |
| Md5.Context.Update | nginx-1.10.0/src/core/ngx_md5.c:34-62 | the context stands for the message so far and the new bytes |
| Md5.Context.Final | nginx-1.10.0/src/core/ngx_md5.c:65-115 | the digest of the padded message |
| Md5.DigestOf | nginx-1.10.0/src/core/ngx_md5.c:34-115 | the digest of parts is that of their concatenation |
| HttpTime.DaysCount | nginx-1.10.0/src/core/ngx_parse_time.c:235-265 | the counting that the formula is measured by: each day's number is one more than the day's before |
| HttpTime.GaussIsCounting | nginx-1.10.0/src/core/ngx_parse_time.c:235-265 | the formula counts the days of the calendar |
| HttpTime.YearZeroWraps | nginx-1.10.0/src/core/ngx_parse_time.c:240-243 | in January and February of year 0 it does not |
| HttpTime.GaussIsCountingIff | nginx-1.10.0/src/core/ngx_parse_time.c:226-265 | the exact condition |
| HttpTime.FindStart | nginx-1.10.0/src/core/ngx_parse_time.c:36-50 | where the date starts and in which format |
| HttpTime.ReadClock | nginx-1.10.0/src/core/ngx_parse_time.c:172-202 | the time of day, read within bounds |
| HttpTime.ReadDayFirst | nginx-1.10.0/src/core/ngx_parse_time.c:56-146 | a date of RFC 822 or RFC 850, read within bounds |
| HttpTime.ReadIsoc | nginx-1.10.0/src/core/ngx_parse_time.c:148-220 | a date of asctime, read within bounds |
| HttpTime.ParseHttpTime | nginx-1.10.0/src/core/ngx_parse_time.c:14-276 | the seconds of the date that is read, if it is one |
| HttpTime.FormatsAgree | nginx-1.10.0/src/core/ngx_parse_time.c:21-26 | an instant written in any of the three formats is read back, with the seconds of day counting |
| HttpTime.OnlyRfc822 | nginx-1.10.0/src/core/ngx_parse_time.c:56-146 | whatever is read as a date of RFC 822 is written as one, but for two letters of the month |
| HttpTime.OnlyRfc850 | nginx-1.10.0/src/core/ngx_parse_time.c:56-146 | so is one of RFC 850, with a year of 1970 to 2069 |
| HttpTime.OnlyAsctime | nginx-1.10.0/src/core/ngx_parse_time.c:148-220 | and one of asctime, with one digit or two for the day |
| HttpTime.MonthLetters | nginx-1.10.0/src/core/ngx_parse_time.c:86-123 | a month is read exactly if a month's first letter stands there |
| RwLock.StepKeepsInv | nginx-1.10.0/src/core/ngx_rwlock.c:19-109 | every load, store and compare-and-set keeps the meaning of the word |
| RwLock.RunKeepsInv | nginx-1.10.0/src/core/ngx_rwlock.c:19-109 | in every run the word is all-ones exactly for one writer alone, and otherwise the number of readers |
| RwLock.WriterIsAlone | nginx-1.10.0/src/core/ngx_rwlock.c:19-86 | a writer excludes all others |
| RwLock.FreeLockIsTaken | nginx-1.10.0/src/core/ngx_rwlock.c:26-28 | a lock that nobody holds is taken by two undisturbed steps |
| RwLock.ReadersShare | nginx-1.10.0/src/core/ngx_rwlock.c:60-86 | a lock that only readers hold is taken by another reader as fast, and they keep it |
| RwLock.UnlockEnds | nginx-1.10.0/src/core/ngx_rwlock.c:89-109 | an undisturbed holder has given the lock back after three steps |
| RwLock.UnlockEndsLater | nginx-1.10.0/src/core/ngx_rwlock.c:104-109 | and a disturbed one two steps after it looks again |
| Pool.RoomIsRight | nginx-1.10.0/src/core/ngx_palloc.c:159-163 | the exact condition under which the unsigned test for room is right |
| Pool.RoomPastTheEnd | nginx-1.10.0/src/core/ngx_palloc.c:159-163 | a pool of 100 bytes in which one more byte seems to fit behind the end |
| Pool.CarveKeeps | nginx-1.10.0/src/core/ngx_palloc.c:163-166 | carving the next bytes of a block overlaps nothing |
| Pool.NewBlockKeeps | nginx-1.10.0/src/core/ngx_palloc.c:193-207 | nor does a new block, and the failure counters still never increase |
| Pool.Pool.Small | nginx-1.10.0/src/core/ngx_palloc.c:148-174 | a new region of the size asked for, aligned if asked for, in the first block that has room; a new block only if none has; NULL exactly if there is neither |
| Pool.Pool.NewBlock | nginx-1.10.0/src/core/ngx_palloc.c:177-210 | a block at the end of the chain, and where the search starts from now on |
| Pool.Pool.Retry | nginx-1.10.0/src/core/ngx_palloc.c:201-205 | which blocks fail once more and which are passed over |
| Pool.PassedAfterSix | nginx-1.10.0/src/core/ngx_palloc.c:201-205 | a block is searched until it has failed six times |
| Pool.Pool.Palloc | nginx-1.10.0/src/core/ngx_palloc.c:122-145 | small or large, everything allocated before is still there; NULL exactly if the memory there is does not do |
| Pool.Pool.PallocLarge | nginx-1.10.0/src/core/ngx_palloc.c:213-249 | a reused or new entry for the memory; NULL exactly if there is no memory, or no entry to be had for it |
| Pool.Pool.Pfree | nginx-1.10.0/src/core/ngx_palloc.c:277-294 | OK exactly for large memory of this pool, which is then free |
| Pool.Pool.Reset | nginx-1.10.0/src/core/ngx_palloc.c:99-119 | the blocks are empty again |
| PoolArray.PlacedApart | nginx-1.10.0/src/core/ngx_array.c:62-84 | two allocations of a pool, small or large, do not overlap |
| PoolArray.EndsFirstBlock | nginx-1.10.0/src/core/ngx_array.c:62-63 | memory that ends where the first block's allocations end is the last of them |
| PoolArray.Array.GrowInPlace | nginx-1.10.0/src/core/ngx_array.c:62-71 | more room without a move, overlapping nothing |
| PoolArray.Array.Move | nginx-1.10.0/src/core/ngx_array.c:73-84 | the same elements in new memory, exactly if the pool has it |
| PoolArray.Array.Push | nginx-1.10.0/src/core/ngx_array.c:47-91 | the elements and the new one, exactly if there is room, the array can grow where it is, or the pool has memory; no other allocation moves |
| PoolArray.Array.PushN | nginx-1.10.0/src/core/ngx_array.c:94-141 | the same for several new elements |
| PoolArray.DoubledIsEnough | nginx-1.10.0/src/core/ngx_array.c:118-130 | the new memory has room for all elements and is twice the old or twice the new ones |
| PoolArray.PushBeside | nginx-1.10.0/src/core/ngx_array.c:47-91 | another array of the same pool is not touched, and the push succeeds as before |

## Left out

- HashTable.Init: settings and names for which a sum of element sizes wraps round in its u_short, or which leave a bucket no room for the smallest element; the name of the hash in messages, and the choice between a given and a new hash structure.
- WildcardHash.Trie.WildcardInit: which levels the pool has memory for is a parameter, and levels that HashTable.Init's contract does not speak of are refused; the temporary pool and its arrays are sequences, levels get increasing addresses, the packed hashes' blocks are apart from them, and the caller's sort is a precondition.
- HashKeys.FindAdded: the hash of exact names is given, as the exact names are kept without values.
- HashKeys.Keys.AddKey: values and hashes of exact names, the bucketed lists of known names (they are sets) and failed allocations.
- OpenFileCache.Cache.Open: a system on which the identity of a file that is still open becomes a directory's; the path without a cache and test_only, vnode events, read-ahead, symlink checks and openat; names are compared for equality only. Freeing the whole cache at exit.
- HttpFileCache.StepKeepsInv: each section under the mutex is one function of the shared state, so updates inside a section are not seen one by one; cache->sh->size as a sum, uniqueness of keys after the retried allocation, processes that die inside a section, bit-field overflow of counters; files on disk, AIO, headers and Vary hashing.
- RadixTree.Tree: preallocation in ngx_radix_tree_create, which inserts valueless nodes.
- OutputChain.Ctx.Run: directio, AIO, threads, the sendfile limit, and bufs shared by address: a buf is a value with one owner, and the flags of copied bufs are stated by CopyBuf only. ngx_chain_writer.
- ResolverNames.CopyName: what happens if the byte after the response cannot be read; log messages.
- SrvReport.ReadSrvs: the names of targets and the lookups of their addresses, which a record carries from the start.
- SrvReport.ReportSrv: handlers, timers and the resolver's other states, its trees, the resend queue and the parsing of responses.
- AddrExport.Export: socket address structures; an address is the value copied into one.
- ConsistentHash.InitChash: the crc32 of host and port is a function of the server and the previous point; ngx_qsort is any function that sorts.
- ChashPeers.Balancer.GetPeer: locks and connection data, the tried bitmap is a set; the non-consistent hash and round robin.
- Queue.Links.Remove: the debug build's NULL links.
- Md5.WordOrderIsRfc: that the additive constants are integer parts of sines.
- HttpTime.ParseHttpTime: a 32-bit time_t.
- RwLock.RunKeepsInv: the number of spins, pauses and yields, and weak memory order: steps are atomic and ordered.
- Pool.Pool.constructor: sizes that are no multiple of NGX_ALIGNMENT, for which Pool.RoomIsRight says what goes wrong.
- Pool.Pool.Palloc: cleanups, destroying a pool, zeroing, ngx_pmemalign; malloc answers are parameters that overlap nothing in use.
- PoolArray.Array.Push: ngx_array_destroy, which gives the last memory back; the caller's write of the new element is part of the push.
- Mail and HTTP protocol handling, events, configuration, SSL and logging.
