# Verified models of storage, allocation and concurrency components

The repository re-implements a number of well-known components: a B+ tree over slotted pages and
the pager below it, the hash tables of Redis, memcached and LevelDB, the nginx slab allocator, the
LevelDB LRU cache, a read/write lock, a Redis client, a timer wheel, a list sort and varint coding.
This project models their hard parts in Dafny and proves what each is for: a fast or incrementally
changing structure agrees with a simple one, a concurrent protocol keeps its promises in every
run, bytes survive a round trip.

Most components come in two or three layers. A *specification* module gives the operations as
functions on values and proves the properties as lemmas over all inputs and all runs. A class then
follows the program's own form, with fields that its methods update, linked nodes, chains, bitmaps
and byte arrays, and every method is proved to compute the specification function.

| component | value layer | imperative layer |
|---|---|---|
| B+ tree | `BTreeSpec`, `BTreeProofs`, `BTreeBudget`, `BTreePaged` | `BTreeNodes` (linked nodes), `BTreePage` (bytes) |
| read/write lock | `RWLock` (a step system of any number of threads) | |
| Redis dict and safe iterator | `DictSpec`, `DictProofs`, `DictIter` | `Dict` |
| memcached hash table | `AssocTable` | `AssocTable.Assoc` |
| slab allocator | `SlabSpec`, `SlabProofs`, `SlabRuns`, `SlabRoom` | `SlabMemory`, `Slab` |
| LRU cache and its table | `LruSpec`, `LruProofs`, `LruRuns`, `LruLedger` | `HandleTable`, `LruCache` |
| pager and page cache | `PagerSpec`, `Pager` | `Pager.Pager` |
| RESP printer and parser | `Resp`, `RespProofs`, `RespReplies` | `RespConnection` |
| queue sort, timer wheel, cluster redirects, varints | `QueueSort`, `TimerWheel`, `ClusterCommand`, `Coding` | the same modules |

`Common`, `Entries`, `Lists`, `Rings` and `Chains` hold what several modules share: options, hash
chains, lists without repetition, circular doubly linked lists and families of them.

## Findings

Where the code does not keep what it promises, a lemma gives an input and another one says exactly
when it does.

- **A leaf page can fill up with garbage** (sqlite_demo/tree/BPlusTree.c:37, 435, 498-510). The bytes
  of cells that a split moved away are counted in one byte, which wraps, and are collected only while
  that byte is above 64. `BTreeBudget.NeverExitsIff`: a program that only inserts is safe from the
  exit in `spaceCheck` exactly when no cell holds more than 30 bytes of data; with 31 bytes 58
  inserts with falling keys end in it (`BTreeBudget.ScriptExits`). The same bound decides whether an
  insert can overrun its own cell (`BTreeBudget.NeverOverrunsIff`, `BTreeBudget.ScriptOverruns`).
- **A full page overwrites its own cell** (sqlite_demo/tree/BPlusTree.c:502). `spaceCheck` counts the
  cell but not its 2-byte pointer. `BTreePage.PointerOverCell`: with less than two bytes to spare the
  pointer array and the new cell share bytes, and either the new key or the pointer of the last cell
  is lost; `BTreePage.FullPageLosesKey` reads key 5 back as 12.
  `BTreePage.Page.StoreCell` keeps the page well formed if and only if the pointer fits as well.
- **A page behind the end of the file shows another page** (sqlite_demo/pager/pager.c:95,
  sqlite_demo/os/os_unix.c:115-124, sqlite_demo/pager/pcache1.c:138-143). A reused frame is not cleared and
  a short read leaves its bytes. `PagerSpec.StalePageShows` gives the run, `PagerSpec.GetOk` and
  `Pager.RunIsCoherent` the condition: every fetched page shows its last value if and only if what
  the read leaves standing in the frame is blank, which it is for every page inside the file.
- **A fetch from the file reports an error** (sqlite_demo/pager/pager.c:107). `Pager.Pager.Get` returns
  the page together with the error status, as the code does.
- **Giving back the address of a bitmap corrupts the slab pool**
  (memcached_slab/ngx_slab.c:426-446). `SlabRuns.BitmapCanBeFreed` gives the input,
  `SlabRuns.FreeKeepsIff` proves that no other address with a descriptor does harm.
- **The end of the pool has no page descriptor** (memcached_slab/ngx_slab.c:413-420). The test is
  `p > pool->end`, so the end itself and a partial last page pass it.
  `SlabRuns.EndHasNoDescriptor` gives the pool, `SlabRuns.PastArrayIff` says when such addresses
  exist.
- **A size within a page of 2^64 asks for no page** (memcached_slab/ngx_slab.c:135). The rounding sum
  wraps, and the loop over the descriptors counts down from zero. `SlabRuns.PageCountIff`: the page
  count covers the size exactly when the sum does not wrap.
- **An array with an integer is lost when it is cut** (gb/downdatarestorer_norah/redisconnection.cpp:1478,
  1558, 1694). `haveArray` is a local of one call of `parse`. `RespProofs.CutLosesInteger` gives the
  cut, `RespProofs.ReceivedIff` proves that an array comes back unless a piece ends behind the header
  and before the end of the last line. Arrays of bulk strings always do (`RespProofs.RoundTrip`).
- **A slice of 4 GiB or more does not come back** (leveldb_table_cache/leveldb_coding/coding2.cpp:36-40):
  its length is cut to 32 bits. `Coding.SliceRoundTrip` is an if-and-only-if on the length.

## As written and as modelled

Several files are transcriptions with slips; some do not compile as they stand. The model follows the
evident intention at these lines, and the code everywhere else.

| line | as written | as modelled |
|---|---|---|
| memcached_hashtable/redis_hashtable.c:193 | the new buckets are not cleared | empty buckets |
| memcached_hashtable/redis_hashtable.c:313 | `ht[1].used` is decremented for an entry that moves in | incremented; as written `used` would not count the entries |
| memcached_hashtable/redis_hashtable.c:438 | tests an undeclared `prev` | tests `prevHe` |
| memcached_slab/ngx_slab.c:84 | links to `&pages[pages]`, an index on the page count | links to `&page[pages]`, the rest of the run |
| memcached_slab/ngx_slab.c:173 | the slots start one page descriptor into the pool | they start behind the pool header, as at line 451 |
| memcached_slab/ngx_slab.c:214 | tests `bitmap[m]` inside the loop over `n` | tests `bitmap[n]` |
| memcached_slab/ngx_slab.c:298 | `a & b == c`, which compares first | `(a & b) == c` |
| memcached_slab/ngx_slab.c:484 | `bitmap[n[` | `bitmap[n]` |
| memcached_slab/ngx_slab.c:618 | sets `page->free.next` | sets `pool->free.next` |
| leveldb_table_cache/leveldb_hashtable_lru/leveldb_hashtable.cpp:40-46 | undeclared `h` and `result` | the key and hash passed in; the removed entry is returned |
| leveldb_table_cache/leveldb_hashtable_lru/leveldb_hashtable.cpp:53 | `new_length<<1` changes nothing, so the loop may not end | `new_length` doubles |
| leveldb_table_cache/leveldb_hashtable_lru/leveldb_hashtable.cpp:56 | clears `sizeof(pointer * length)` | clears the whole array |
| leveldb_table_cache/leveldb_hashtable_lru/leveldb_hashtable.cpp:59, 75, 87 | `lenght_`, `length`, `h_next` | `length_`, `length_`, `next_hash` |
| leveldb_table_cache/leveldb_hashtable_lru/leveldb_hashtable.cpp:15-17 | no constructor | the table starts with four empty chains, the least that `Resize` makes |
| leveldb_table_cache/leveldb_hashtable_lru/leveldb_lru.cpp:95, 123 | the result of a `void` function is used | ignored |
| leveldb_table_cache/leveldb_hashtable_lru/leveldb_lru.cpp:97 | no `return` | the new handle is returned |
| leveldb_table_cache/leveldb_hashtable_lru/leveldb_lru.cpp:121 | `enxt` | `next` |
| memcached_hashtable/memcached_hashtable.c:246 | hashes an undeclared `key` | hashes the key of the item |
| tiny_server/timer/timerwheel.cpp:175 | `cur_slot==++cur_slot % N` only increments, so the slot leaves the wheel | `cur_slot = (cur_slot + 1) % N` |
| sqlite_demo/pager/pcache1.c:73 | the hash array is not cleared | empty chains |
| sqlite_demo/pager/pcache.c:110-111 | clears `sz_extra` bytes behind the page header, where the frame's own PgHdr1 lies (pcache.c:49, pcache1.c:160-165) | frames stay as they are |
| leveldb_table_cache/leveldb_coding/coding.cpp:232-272 | two versions of `GetVarint32PtrFallback` | the second |
| leveldb_table_cache/leveldb_hashtable_lru/leveldb_lru.cpp:129-176 | older versions of three methods | the versions at 15-126 |

Two statements of the documentation do not fit the code, and the code is followed: the list of unused
frames in sqlite_demo/pager/pcache1.c:212-238 is called LRU but is last in, first out; and the loop over a
half-full list in memcached_slab/ngx_slab.c:180-316 never gets past its first page, since a listed page
always has a free chunk.

## Model

| member | source | states |
|---|---|---|
| BTreeProofs.InsertRefinesMap | sqlite_demo/tree/BPlusTree.c:178-221 | an insert fails exactly when the key is in the map and then changes nothing; otherwise the map gains exactly that pair; order, balance and fill of all nodes stay, and the height grows only when the root splits |
| BTreeProofs.Insert2Ok | sqlite_demo/tree/BPlusTree.c:188-221 | below any node a duplicate is reported exactly when the key is there, a new cell ends up at its place in the in-order sequence, and whatever splits happen leave ordered, balanced, sufficiently full nodes |
| BTreeProofs.CutOk | sqlite_demo/tree/BPlusTree.c:295-400 | a split leaf or interior node gives two halves that are ordered around the separator, large enough, and together hold what the node held; the lower one keeps five cells, the separator of a leaf is the largest key that stayed, and of an interior node the sixth key moves up |
| BTreeProofs.RunRefinesMap | sqlite_demo/tree/BPlusTree.c:178-221 | after any run of inserts the tree holds the first value written for each key |
| BTreeProofs.HeightIsLogarithmic | sqlite_demo/tree/BPlusTree.c:188-221 | a tree of height h >= 1 holds at least 2 * 5^h keys |
| BTreeProofs.DescendKeepsKey | sqlite_demo/tree/BPlusTree.c:155-175 | the child that search descends into holds the key exactly when the subtree does |
| BTreeNodes.BPlusTree.Insert | sqlite_demo/tree/BPlusTree.c:178-186 | on linked records an insert fails exactly when the key is in the map and then touches no record; otherwise the map gains exactly that pair; the node operations done so far build the records |
| BTreeNodes.BPlusTree.Insert2 | sqlite_demo/tree/BPlusTree.c:188-221 | the recursive insert replaces the records of one subtree by those of the new one and leaves all others alone, splits and the father's records included |
| BTreeNodes.BPlusTree.SplitLeafNode | sqlite_demo/tree/BPlusTree.c:295-345 | moving the upper five cells to a new leaf and relinking the father leaves the records of the cut tree |
| BTreeNodes.BPlusTree.SplitIntNode | sqlite_demo/tree/BPlusTree.c:347-400 | the same for an interior node, whose middle key moves up |
| BTreeNodes.BPlusTree.GetKnumByChild | sqlite_demo/tree/BPlusTree.c:403-416 | returns the first cell that points to the child, or -1 exactly when there is none |
| BTreeNodes.BPlusTree.Search | sqlite_demo/tree/BPlusTree.c:133-176 | below any node a found cell is one of the subtree's, and nothing is found exactly when no cell has the key |
| BTreeNodes.BPlusTree.Lookup | sqlite_demo/tree/BPlusTree.c:133-176 | search from the root finds a key exactly when it is in the map, with the map's data |
| BTreePage.Page.InsertLeafCell | sqlite_demo/tree/BPlusTree.c:224-257 | on bytes: exits exactly when the cell does not fit after the check, refuses exactly the duplicates, and otherwise puts the encoded cell at its place in key order, provided its pointer fits too |
| BTreePage.Page.InsertIntCell | sqlite_demo/tree/BPlusTree.c:260-291 | the same for interior cells; with at most ten cells an interior page never runs out of space |
| BTreePage.Page.StoreCell | sqlite_demo/tree/BPlusTree.c:243-256 | writes exactly the pointer shift, the cell and its pointer into the page; the page stays well formed if and only if the pointer fits |
| BTreePage.PointerOverCell | sqlite_demo/tree/BPlusTree.c:502 | with zero or one byte beside the cell, the pointer of a cell put last lies on the cell, and a cell put anywhere else lies on the pointer of the last one |
| BTreePage.FullPageLosesKey | sqlite_demo/tree/BPlusTree.c:502 | a cell with key 5 that fills an empty page is read back with key 12 |
| BTreePage.Page.RemoveKth | sqlite_demo/tree/BPlusTree.c:419-454 | exactly the k-th cell goes, the others keep order and bytes, and its size becomes garbage |
| BTreePage.Page.GetKth | sqlite_demo/tree/BPlusTree.c:457-492 | reads back the key, word and data the k-th cell was encoded from |
| BTreePage.Page.SpaceCheck | sqlite_demo/tree/BPlusTree.c:495-511 | reports whether the bytes fit, after a clean-up exactly when the counter is above 64; the cells stay |
| BTreePage.Page.SpaceCleanUp | sqlite_demo/tree/BPlusTree.c:514-546 | the cells stay as they are, the cell area ends up packed, the garbage is gone |
| BTreePage.InsertRefines | sqlite_demo/tree/BPlusTree.c:243-256 | the bytes after a store hold the old cells and the new one at its position, without overlap among them or with the pointers |
| BTreePage.RemoveRefines | sqlite_demo/tree/BPlusTree.c:419-454 | the bytes after a removal hold the other cells unchanged |
| BTreePage.EncodeDecode | sqlite_demo/tree/BPlusTree.c:457-492 | key, word and data survive being written little-endian and read back |
| BTreePage.LeafInsertRefines | sqlite_demo/tree/BPlusTree.c:224-257 | a leaf insert on the page is the cell insert that the tree makes |
| BTreePage.IntInsertRefines | sqlite_demo/tree/BPlusTree.c:260-291 | an interior insert on the page is the one the linked records make |
| BTreeBudget.NeverExitsIff | sqlite_demo/tree/BPlusTree.c:495-511 | no run of inserts ends in the exit of spaceCheck if and only if no cell may hold more than 30 bytes of data |
| BTreeBudget.NeverOverrunsIff | sqlite_demo/tree/BPlusTree.c:495-511 | no insert of any run writes its pointer over a cell if and only if no cell may hold more than 30 bytes of data |
| BTreeBudget.SmallRunFits | sqlite_demo/tree/BPlusTree.c:295-313 | with at most 30 bytes every insert of every run finds room, and no page ever has more than 254 bytes of garbage |
| BTreeBudget.ScriptExits | sqlite_demo/tree/BPlusTree.c:498-510 | 58 inserts with falling keys and at most 31 bytes each end in the exit |
| BTreeBudget.ScriptOverruns | sqlite_demo/tree/BPlusTree.c:498-510 | 58 other ones end with a cell that fits and a pointer that does not |
| BTreeBudget.SplitFits | sqlite_demo/tree/BPlusTree.c:295-313 | where the new cell fits, the cells a split moves one by one into an empty leaf fit there too |
| BTreeBudget.InsertTouchesOne | sqlite_demo/tree/BPlusTree.c:188-221 | seen from left to right an insert changes one leaf only, and a split puts the upper half next to it |
| BTreeBudget.PageSpace | sqlite_demo/tree/BPlusTree.c:495-511 | the room counted for a run is the room the byte page computes |
| BTreePaged.PagesHoldTree | sqlite_demo/tree/BPlusTree.c:178-546 | whatever the tree has done to its nodes, done to pages of bytes, leaves pages that stand for exactly its records, unless a page lacked room |
| BTreePaged.SmallTreeOnPages | sqlite_demo/tree/BPlusTree.c:178-546 | when no cell with more than 30 bytes of data was inserted, no page ever lacks room, so the pages hold the tree |
| BTreePaged.PageStands | sqlite_demo/tree/BPlusTree.c:224-291 | inserting, removing and linking on one page is the same operation on the record it stands for |
| BTreePage.RemoveViewRefines | sqlite_demo/tree/BPlusTree.c:419-454 | removing a cell from the page removes it from the cells that the tree sees |
| BTreePage.Page.PutLeaf | sqlite_demo/tree/BPlusTree.c:224-257 | on bytes: exit, overrun, duplicate and new cell exactly as the page operation of the tree on pages says |
| BTreePage.Page.PutInt | sqlite_demo/tree/BPlusTree.c:260-291 | the same for interior cells |
| RWLock.RunInv | gb/bak/rwmutex.cpp:32-61 | in every state of every run, spurious wake-ups included, the mutex has one owner, the counters count the threads, tests still hold, and no reader or writer sleeps on a lost signal |
| RWLock.MutualExclusion | gb/bak/rwmutex.cpp:32-61 | in every state of every run a thread that holds the lock for writing excludes every other holder |
| RWLock.CallersExclude | gb/bak/rwmutex.cpp:32-61 | in every run a thread that called acquireWrite and any other caller are never both back from their acquires, nor do both hold the lock |
| RWLock.CallerHolds | gb/bak/rwmutex.cpp:32-61 | whoever called acquireWrite holds the lock for writing once its call has returned, whoever called acquireRead for reading, and neither ever holds it the other way |
| RWLock.EveryHolderCalled | gb/bak/rwmutex.cpp:32-61 | every thread inside the lock got there by one of the two calls |
| RWLock.WritersGoFirst | gb/bak/rwmutex.cpp:36 | in every run a thread gets the lock for reading only while no thread waits for writing |
| RWLock.ReleaseNeverStuck | gb/bak/rwmutex.cpp:104-131 | no run reaches the early return of release, and release undoes the kind of hold the thread had |
| RWLock.FreeLockHasNoLostSleeper | gb/bak/rwmutex.cpp:104-131 | in every run, while the mutex is free and nobody holds the lock, a sleeper has a woken writer on the way |
| RWLock.EveryScheduleDrains | gb/bak/rwmutex.cpp:32-131 | once requests and spurious wake-ups stop, every schedule is finite, and one that cannot go on has served every thread |
| DictProofs.RunRefinesMap | memcached_hashtable/redis_hashtable.c:80-160 | any run of adds, finds, deletes and rehash calls leaves the two tables standing for the one map the same operations build |
| DictProofs.AddRefines | memcached_hashtable/redis_hashtable.c:80-102 | an add succeeds exactly when the key is absent and then adds the pair, through growth and rehash steps |
| DictProofs.FindRefines | memcached_hashtable/redis_hashtable.c:252-278 | a find returns what the map holds, and its rehash step changes nothing in the map |
| DictProofs.DeleteRefines | memcached_hashtable/redis_hashtable.c:417-458 | a delete takes exactly that key out, in whichever table it is, and reports whether it was there |
| DictProofs.SkipStaysInside | memcached_hashtable/redis_hashtable.c:287-303 | skipping empty buckets never leaves the old table while it has entries |
| DictProofs.RehashCompletesInTime | memcached_hashtable/redis_hashtable.c:162-217 | a rehash is over after at most as many operations as the old table has buckets, whatever they are, and then the entries do not exceed the new size |
| DictProofs.GrowsIff | memcached_hashtable/redis_hashtable.c:162-204 | the first table has four buckets; a larger one is started exactly when the entries reach the size and resizing is allowed or the ratio is exceeded, with room for twice the entries |
| DictProofs.AddToFullGrows | memcached_hashtable/redis_hashtable.c:170-174 | an add to a full table starts a rehash, whether the key is new or not |
| DictProofs.RunStaysRoomy | memcached_hashtable/redis_hashtable.c:162-178 | after every run the entries are at most as many as the buckets of the newest table, or the force ratio plus one times as many when resizing is switched off |
| DictProofs.RehashMoves | memcached_hashtable/redis_hashtable.c:287-330 | a dictRehash(n) that does not finish has moved n buckets with entries, or passed 10 n empty ones and moved fewer |
| DictProofs.OldOnlyShrinks | memcached_hashtable/redis_hashtable.c:80-102 | while a rehash goes on the old table takes in no key |
| Dict.RedisDict.Rehash | memcached_hashtable/redis_hashtable.c:287-330 | the loops over buckets and chains compute the rehash function and report whether entries remain |
| Dict.RedisDict.Add | memcached_hashtable/redis_hashtable.c:80-102 | computes the add, and so the map's |
| Dict.RedisDict.Find | memcached_hashtable/redis_hashtable.c:252-278 | computes the find, and so the map's |
| Dict.RedisDict.Delete | memcached_hashtable/redis_hashtable.c:417-458 | computes the delete, and so the map's |
| Dict.RedisDict.DictExpand | memcached_hashtable/redis_hashtable.c:180-204 | refuses a rehash in progress and a size below the entries, else starts the table or a rehash with the next power of two |
| Dict.RedisDict.NextPowerOfTwo | memcached_hashtable/redis_hashtable.c:206-217 | the power of two, at least 4, that is not below the size and, above 4, less than twice the size |
| DictIter.SafeIterationExactlyOnce | memcached_hashtable/redis_hashtable.c:506-569 | an entry present when a safe iterator starts and not deleted is returned at most once, and exactly once when the iteration ends, with any adds, finds and deletes in between and in the middle of a rehash, as long as the entry the iterator has saved is not deleted |
| DictIter.DeletedNotReturned | memcached_hashtable/redis_hashtable.c:506-569 | from the moment a key is deleted, and unless it is added again, the iteration does not return it |
| DictIter.PassAhead | memcached_hashtable/redis_hashtable.c:526-569 | each pass of dictNext returns the first key still ahead or moves on without losing one |
| Dict.SafeIterator.Next | memcached_hashtable/redis_hashtable.c:526-569 | the iterator object computes dictNext |
| AssocTable.RunRefinesMap | memcached_hashtable/memcached_hashtable.c:70-143 | under any mix of inserts, finds, deletes, expansions and single-bucket migrations a find returns the live item, which is in the old table exactly when its old bucket has not been migrated |
| AssocTable.MigrateIsLocal | memcached_hashtable/memcached_hashtable.c:227-282 | migrating bucket b of the old table changes no new bucket but b and b plus the old size |
| AssocTable.MigrateRefines | memcached_hashtable/memcached_hashtable.c:227-282 | a migrated bucket leaves the map as it was |
| AssocTable.ExpandRefines | memcached_hashtable/memcached_hashtable.c:296-311 | expansion leaves the map as it was |
| AssocTable.InsertRefines | memcached_hashtable/memcached_hashtable.c:70-93 | an insert of an absent key adds exactly that pair |
| AssocTable.DeleteRefines | memcached_hashtable/memcached_hashtable.c:183-223 | a delete of a present key takes out exactly that pair |
| AssocTable.FindRefines | memcached_hashtable/memcached_hashtable.c:117-143 | a find returns what the map holds |
| AssocTable.Assoc.MoveBucket | memcached_hashtable/memcached_hashtable.c:227-282 | a round of the maintenance loop computes the migration of one bucket |
| AssocTable.Assoc.AssocInsert | memcached_hashtable/memcached_hashtable.c:70-93 | computes the insert, and asks for an expansion exactly when none is under way and the items exceed one and a half times the buckets |
| AssocTable.Assoc.AssocDelete | memcached_hashtable/memcached_hashtable.c:183-223 | unlinking behind the pointer that the walk stopped at removes the key |
| SlabRuns.RunIsSafe | memcached_slab/ngx_slab.c:126-403 | from the memory ngx_slab_init was given, after every run of allocs and frees the blocks users hold lie inside it, apart from each other, aligned, off the bitmaps, and are of the kind that suits the size asked for; every page has one use and none is lost |
| SlabRuns.AllocOk | memcached_slab/ngx_slab.c:126-403 | a request below 2048 bytes gets the smallest chunk that is large enough, from a page already cut for that size as long as one has room, and a larger one as few whole pages as will do; the block is new and beside all old ones; a request is refused, with nothing changed, exactly when no chunk and no run can serve it |
| SlabRoom.FreshPoolServes | memcached_slab/ngx_slab.c:126-403 | right after ngx_slab_init a pool serves exactly as many requests of one class as its pages have chunks beside their bitmaps |
| SlabRoom.ServesItsRoom | memcached_slab/ngx_slab.c:126-403 | any pool serves exactly as many requests of one class as it has chunks of that class left, counting those its free pages can be cut into |
| SlabRoom.AllocTakesRoom | memcached_slab/ngx_slab.c:162-397 | a request is served exactly when there is such a chunk, and takes one of them |
| SlabRoom.FreeGivesRoom | memcached_slab/ngx_slab.c:406-596 | a chunk given back is one more, also when its page goes back with it |
| SlabRoom.FreedChunkIsReused | memcached_slab/ngx_slab.c:447-463 | a chunk given back to a full page is the next one of its size to be handed out |
| SlabRoom.FreedIsReused | memcached_slab/ngx_slab.c:599-619 | a block of pages given back is what the next request for as many pages gets |
| SlabRoom.EarlierRunsFirst | memcached_slab/ngx_slab.c:67-118 | taking pages off one run leaves the runs listed before it in their places |
| SlabRuns.PageCountIff | memcached_slab/ngx_slab.c:133-135 | the page count covers the size exactly when the rounding sum does not wrap, and is zero otherwise |
| SlabRuns.FreeBlock | memcached_slab/ngx_slab.c:406-596 | giving back a block in use takes exactly that block out of use |
| SlabRuns.FreeKeepsIff | memcached_slab/ngx_slab.c:406-596 | of the addresses with a descriptor exactly those of a bitmap must not be given back; any other takes the block that starts there, if one does, and nothing else out of use |
| SlabRuns.BitmapCanBeFreed | memcached_slab/ngx_slab.c:426-446 | after the first allocation of 8 bytes, giving back the address of the bitmap breaks the pool |
| SlabRuns.InitOk | memcached_slab/ngx_slab.c:635-701 | there is a descriptor for every page that could fit, the pages start on the first boundary behind the descriptors, are as many as fit, and end inside the memory exactly when they start there |
| SlabRuns.PastArrayIff | memcached_slab/ngx_slab.c:413-420 | an address passes the range test without a descriptor exactly when the descriptors do not reach past the memory |
| SlabRuns.EndHasNoDescriptor | memcached_slab/ngx_slab.c:413-420 | a pool whose only page ends with the memory has such an address: its end |
| SlabRuns.OneOwner | memcached_slab/ngx_slab.c:67-118 | every page belongs to exactly one free run, block or chunked page |
| SlabRuns.NothingLeaks | memcached_slab/ngx_slab.c:599-619 | with everything given back every page is in a free run again |
| Slab.SlabPool.constructor | memcached_slab/ngx_slab.c:635-701 | builds descriptors, slots and the first free run that stand for the initial pool |
| Slab.SlabPool.AllocPages | memcached_slab/ngx_slab.c:67-118 | descriptors and list links compute the first fit: the front of the run is taken, the rest relisted in its place |
| Slab.SlabPool.Alloc | memcached_slab/ngx_slab.c:126-403 | bitmaps in the page, in the descriptor and beside a shift, tags and half-full lists compute the allocation; a size that wraps is reported as lost |
| Slab.SlabPool.Free | memcached_slab/ngx_slab.c:406-596 | the same representation computes the release, refusals included; an address that passes the range test without a descriptor is reported as lost |
| Slab.SlabPool.FreePages | memcached_slab/ngx_slab.c:599-619 | the descriptors of the block become a free run at the head of the list |
| LruRuns.RunIsSafe | leveldb_table_cache/leveldb_hashtable_lru/leveldb_lru.cpp:15-126 | after every legal run what clients hold is alive, and each entry made is destroyed once if it is gone and never otherwise |
| LruRuns.RunKeepsInv | leveldb_table_cache/leveldb_hashtable_lru/leveldb_lru.cpp:15-126 | in every run the table holds exactly the in_cache entries, those with one reference are on lru_, the others on in_use_, and usage_ is the sum of their charges |
| LruRuns.InsertOk | leveldb_table_cache/leveldb_hashtable_lru/leveldb_lru.cpp:67-98 | the handle shows the name, value and charge asked for, also when the cache is switched off; with capacity the entry is in the table; usage fits or nothing is left to evict, no eviction was unnecessary, those evicted were released before all that stayed, and lookups see the old values with the new one, less exactly the names evicted |
| LruRuns.LookupFinds | leveldb_table_cache/leveldb_hashtable_lru/leveldb_lru.cpp:54-60 | a lookup returns the entry stored under the name, or nothing, and changes no stored value |
| LruRuns.EraseView | leveldb_table_cache/leveldb_hashtable_lru/leveldb_lru.cpp:112-115 | an erase takes exactly that name out of what lookups see |
| LruRuns.ReleaseKeepsView | leveldb_table_cache/leveldb_hashtable_lru/leveldb_lru.cpp:62-65 | a release changes nothing that lookups see |
| LruRuns.NothingLeaks | leveldb_table_cache/leveldb_hashtable_lru/leveldb_lru.cpp:117-126 | with no handle held, a prune empties the cache and every entry has been destroyed once |
| LruRuns.PruneView | leveldb_table_cache/leveldb_hashtable_lru/leveldb_lru.cpp:117-126 | a prune drops every entry nobody holds and nothing else |
| LruLedger.RunKeepsLedger | leveldb_table_cache/leveldb_hashtable_lru/leveldb_lru.cpp:15-126 | after every run each handle held shows the name, value and charge of the insert that made it, a lookup finds nothing or the last value inserted under the name, and usage_ is the sum of the charges asked for over the names in the table |
| LruCache.LRUCache.Ref | leveldb_table_cache/leveldb_hashtable_lru/leveldb_lru.cpp:15-23 | on linked rings the entry moves from lru_ to in_use_ with its second reference |
| LruCache.LRUCache.Unref | leveldb_table_cache/leveldb_hashtable_lru/leveldb_lru.cpp:25-38 | the last reference destroys the entry, the last but one of a cached entry moves it to the end of lru_ |
| LruCache.LRUCache.Insert | leveldb_table_cache/leveldb_hashtable_lru/leveldb_lru.cpp:67-98 | rings, table and counters compute the insert with its evictions |
| LruCache.LRUCache.Erase | leveldb_table_cache/leveldb_hashtable_lru/leveldb_lru.cpp:112-115 | rings, table and counters compute the erase |
| LruCache.LRUCache.Prune | leveldb_table_cache/leveldb_hashtable_lru/leveldb_lru.cpp:117-126 | rings, table and counters compute the prune |
| HandleTable.HandleTable.Insert | leveldb_table_cache/leveldb_hashtable_lru/leveldb_hashtable.cpp:23-36 | the chains hold the new entry under its name, the old one is returned, and the table never has more elements than chains |
| HandleTable.HandleTable.Remove | leveldb_table_cache/leveldb_hashtable_lru/leveldb_hashtable.cpp:38-47 | exactly that name leaves the chains |
| HandleTable.HandleTable.Resize | leveldb_table_cache/leveldb_hashtable_lru/leveldb_hashtable.cpp:49-76 | rechaining loses and adds no entry, into the smallest power of two from 4 on that is not below the number of elements |
| Pager.RunIsCoherent | sqlite_demo/pager/pager.c:65-155 | in every run of gets, edits, commits and releases all fetched pages show the last value written if and only if every fetch leaves a blank rest in its frame |
| Pager.InsideIsClean | sqlite_demo/pager/pager.c:65-108 | fetching a page that lies inside the file is always such a fetch |
| Pager.RunKeepsLimit | sqlite_demo/pager/pcache1.c:119-191 | in every run the frames in the hash table and on the list of unused ones are all frames and never exceed mx_pages |
| Pager.RunCountsHolds | sqlite_demo/pager/pcache.c:83-132 | after every run the references of each frame are those clients got and did not give back, so a frame is on the list of unused ones exactly when nobody holds it, and a held one is where its page is found |
| Pager.RunKeepsHeld | sqlite_demo/pager/pcache.c:83-132 | as long as somebody holds a frame it stands for the same page, whatever the others do, and its bytes are those of the last edit |
| Pager.LastReleasedIsNext | sqlite_demo/pager/pcache1.c:212-238 | the frame given up last is the first to be used again |
| PagerSpec.GetOk | sqlite_demo/pager/pager.c:65-108 | a page handed out shows its value if and only if it is in memory, new in a fresh frame, or read over a blank rest; no other page's value changes; every frame in use keeps its page and bytes, and the one handed out gains a reference |
| PagerSpec.StalePageShows | sqlite_demo/pager/pcache1.c:138-143 | with one frame and a file of one page, page 2 shows the bytes of page 1 |
| PagerSpec.CommitOk | sqlite_demo/pager/pager.c:125-155 | commit empties the dirty list, makes the file equal to what the pages hold, and changes no page |
| PagerSpec.ReadShows | sqlite_demo/os/os_unix.c:115-124 | a read gives the page of the file if and only if the buffer was blank behind the end |
| Pager.Pager.Get | sqlite_demo/pager/pager.c:65-108 | hash chains and frame lists compute the get; status Ok for a hit, Error with the page for a miss, NoMem at the limit |
| Pager.Pager.Release | sqlite_demo/pager/pcache.c:120-132 | the last reference takes the page out of the hash table and puts its frame on the list |
| Pager.Pager.MakeDirty | sqlite_demo/pager/pcache.c:135-148 | a clean page is marked and put at the head of the dirty list, a dirty one is left |
| Pager.Pager.Commit | sqlite_demo/pager/pager.c:125-155 | walking the dirty list computes the commit |
| QueueSort.Queue.Sort | libevent_TAILQ/queue_t.h:78-102 | for every length and every total preorder the ring stays well formed and becomes a sorted, stable permutation of its nodes |
| QueueSort.StableSortUnique | libevent_TAILQ/queue_t.h:78-102 | sorted, stable and a permutation determine the list |
| QueueSort.Queue.InsertAfter | libevent_TAILQ/queue_t.h:41-45 | four links put a node behind another one in the ring |
| QueueSort.Queue.Remove | libevent_TAILQ/queue_t.h:103-114 | two links take exactly that node out of the ring |
| TimerWheel.FiresOnce | tiny_server/timer/timerwheel.cpp:111-176 | in every run of addTimer and tick calls a timer whose timeout spans t intervals, one below an interval, is fired by the (t+1)-th later tick and by no other |
| TimerWheel.FiresOnlyAdded | tiny_server/timer/timerwheel.cpp:143-176 | a tick fires only timers that were added |
| TimerWheel.RunRefines | tiny_server/timer/timerwheel.cpp:111-176 | after any calls the wheel stands for the countdowns of those calls |
| TimerWheel.TickRefines | tiny_server/timer/timerwheel.cpp:143-176 | a tick of the wheel takes one from every countdown and fires exactly those at zero |
| TimerWheel.AddRefines | tiny_server/timer/timerwheel.cpp:111-136 | slot and rotation of a new timer stand for its ticks |
| TimerWheel.TimerWheel.AddTimer | tiny_server/timer/timerwheel.cpp:111-136 | refuses a negative timeout, else files the timer in its slot |
| TimerWheel.TimerWheel.Tick | tiny_server/timer/timerwheel.cpp:143-176 | sweeping the slot fires and keeps what the tick function says |
| ClusterCommand.DoCommand | gb/downdatarestorer_norah/redisclient.cpp:2247-2321 | for any server behaviour the loop ends, every send is to the owner, a MOVED target or a backup due, a write never goes to a backup, and it gives up only when no node is left to ask |
| ClusterCommand.Attempts | gb/downdatarestorer_norah/redisclient.cpp:2640-2675 | the loop itself, given the owner |
| RespProofs.RoundTrip | gb/downdatarestorer_norah/redisbase.cpp:3-37 | every non-empty list of byte strings, printed as a command and cut into pieces in any way, comes back exactly |
| RespProofs.ReceivedIff | gb/downdatarestorer_norah/redisconnection.cpp:1468-1720 | an array of bulk strings, nil ones included, and lines comes back, item by item and reported as an array, if and only if no piece ends behind the header and before the end of the last line |
| RespProofs.CutLosesInteger | gb/downdatarestorer_norah/redisconnection.cpp:1558 | the array with the integer 5, cut behind its header, does not come back |
| RespProofs.NotBeforeTheEnd | gb/downdatarestorer_norah/redisconnection.cpp:250-342 | with a byte of the command missing the reply is not complete |
| RespReplies.StatusComesBack | gb/downdatarestorer_norah/redisconnection.cpp:1492-1554 | a status line without zero bytes or a line end in it, cut into pieces in any way, is reported as a status with its text |
| RespReplies.ErrorComesBack | gb/downdatarestorer_norah/redisconnection.cpp:1488-1554 | likewise an error line, as an error |
| RespReplies.NumberComesBack | gb/downdatarestorer_norah/redisconnection.cpp:1496-1535 | every number, negative ones included, is reported as an integer with its value, under every cutting |
| RespReplies.BulkComesBack | gb/downdatarestorer_norah/redisconnection.cpp:1500-1667 | a bulk string of any bytes, and the nil bulk string, are reported as a string with that one item, under every cutting |
| RespReplies.EmptyComesBack | gb/downdatarestorer_norah/redisconnection.cpp:1668-1700 | the array without elements and the nil array are reported as arrays without items, the latter with value -1 |
| RespReplies.UnknownRefused | gb/downdatarestorer_norah/redisconnection.cpp:1509-1513 | any other first byte is refused and reported as a reply of unknown type |
| Resp.CreateRedisCommand | gb/downdatarestorer_norah/redisbase.cpp:3-37 | fails exactly for an empty list, else the loop prints the command |
| Resp.AtoiDec | gb/downdatarestorer_norah/redisconnection.cpp:1602-1610 | a printed length is read back as the same number |
| RespConnection.Connection.Parse | gb/downdatarestorer_norah/redisconnection.cpp:1468-1720 | walking the zero-terminated buffer computes the parse of its bytes, with the carry-over |
| RespConnection.Connection.Recv | gb/downdatarestorer_norah/redisconnection.cpp:250-342 | the read loop computes the receive function; carried-over bytes and the next read always fit the buffer, doubled if need be |
| Coding.RoundTrip32 | leveldb_table_cache/leveldb_coding/coding.cpp:155-272 | a 32-bit value is read back from its varint, with what follows left over |
| Coding.RoundTrip64 | leveldb_table_cache/leveldb_coding/coding.cpp:193-293 | the same for 64 bits |
| Coding.PrefixRefused | leveldb_table_cache/leveldb_coding/coding.cpp:253-293 | every proper prefix of a varint is refused |
| Coding.DecodeMeans | leveldb_table_cache/leveldb_coding/coding.cpp:253-293 | any bytes decode to the base-128 number up to the first unmarked byte, cut to the width, if that byte is among the first five or ten, and are refused otherwise |
| Coding.SliceRoundTrip | leveldb_table_cache/leveldb_coding/coding2.cpp:36-88 | a slice comes back if and only if it is shorter than 2^32 bytes |
| Coding.SlicesRoundTrip | leveldb_table_cache/leveldb_coding/coding2.cpp:36-88 | a list of slices comes back whole and consumes all bytes |
| Coding.EncodeVarint32 | leveldb_table_cache/leveldb_coding/coding.cpp:155-190 | the five branches write the same varint as the loop, and nothing else |
| Coding.EncodeVarint64 | leveldb_table_cache/leveldb_coding/coding.cpp:193-204 | the loop writes the varint, and nothing else |
| Coding.VarintLength | leveldb_table_cache/leveldb_coding/coding.cpp:206-215 | the number of bytes the encoders write |
| Coding.GetVarint32 | leveldb_table_cache/leveldb_coding/coding.cpp:218-272 | the fast path and the loop decode or refuse as specified |
| Coding.GetVarint64 | leveldb_table_cache/leveldb_coding/coding.cpp:274-293 | the loop decodes or refuses as specified |
| Coding.GetLengthPrefixedSlice | leveldb_table_cache/leveldb_coding/coding2.cpp:75-88 | takes a length and that many bytes, or refuses; a call refused for want of bytes has consumed the length |

## Left out

- BTreeProofs.InsertRefinesMap: the tree itself has no page size, so it does not take the program's exit for lack of space; `BTreeBudget` says for which runs that exit does not happen, and `BTreePaged` carries the tree to pages for those that have room.
- BTreeProofs.RunRefinesMap: the same holds of runs.
- BTreeNodes.BPlusTree.Insert: child pointers are unbounded ids there; `BTreePaged` covers histories whose ids fit the 32 bits a page stores.
- SlabRuns.RunIsSafe: stated for pages of 4096 bytes, 64-bit words and a smallest class of 8 bytes; the memory's start and end are arbitrary. Sizes that wrap are not in its runs. Locking, shared-memory error codes and the log are not modelled; the type tags the file does not define are 0 to 3.
- RespProofs.ReceivedIff: lines that begin with `+` and a digit are not covered, since `atoi` takes them for a length; nested arrays are not an input of this parser.
- RespConnection.Connection.Parse: a line of 4096 bytes or more overflows the local buffer at redisconnection.cpp:1524, 1543, 1603 and 1674; the model has no such buffer. A negative bulk length other than -1 ends the parse, where the code would allocate with it. The scan and enhanced parsers are left out.
- RespReplies.NumberComesBack: integers are unbounded in the model; atoi and the int it fills are not, and a number outside that range is undefined in the code.
- DictProofs.RunStaysRoomy: as RehashCompletesInTime, it speaks of runs without iterators and without dictExpand called by hand.
- DictIter.SafeIterationExactlyOnce: nothing is said once the entry the iterator has saved is deleted, to which the code keeps a pointer; unsafe iterators and the fingerprint are left out.
- DictProofs.RehashCompletesInTime: speaks of rehashes that automatic growth starts; dictExpand called by hand may ask for more or less. Sizes near LONG_MAX are not modelled.
- RWLock.RunInv: the mode with m_maxOperationNumber other than 1 and acquireCertainWrite/releaseCertain are left out; a step is one statement, and memory is sequentially consistent.
- TimerWheel.TimerWheel.Tick: a slot is a list of timers; its pointers are not modelled, and what a timer runs is left out.
- AssocTable.Assoc.MoveBucket: a chain is a list; the locks and the maintenance thread's condition variable are left out, so a round is one step.
- Dict.RedisDict.Rehash: a chain is a list of entries, so relinking is modelled as moving an entry.
- Pager.Pager.Get: page numbers and offsets do not overflow, and write errors are not modelled. The hash array is made once, with 256 chains, as in the code, which never grows it later.
- Coding.GetVarint32: pointers are positions in a byte sequence.
- Sockets, event loops, threads, logging, generated code, connection pools, and the device and channel managers: plumbing around code that is not shown.
- Allocators other than the slab pool, the Bloom filter, fixed-width coding, timer lists and trees: easier members next to the ones modelled.
- sqlite_demo/tree/BPlusTreeForPager.c and ngx_slab/ngx_slab.cpp: unfinished variants of modelled files.
