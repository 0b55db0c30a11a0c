# KubeClient cache: a verified model

KubeClient serves Kubernetes objects from a deduplicated in-memory store. This project models that store, the
caches and indexes around it, and the informers and write-through calls that feed it, and proves what they promise.

- **The store** (`Pools`, `Values`, `Heaps`, `ValuePool`, `NodePool`, `Decomposing`, `DedupStore`). Objects are cut into
  scalars and nodes, and each distinct one is kept once in a numbered pool. The pools are classes over the same slices
  and maps as the source, specified by one abstract `Pool`; the node hash is an arbitrary function, so nothing depends
  on collisions being rare. A heap is well formed (`HeapOk`) when every child id is live and smaller than its parent
  and every mentioned value is live. `Val` is the tree an id stands for, and everything else is said of such trees.
- **What ids mean over time** (`Identity`). The heaps a run passes through form a chain: an id that was given up never
  comes back, and a tree that is held throughout keeps its id.
- **Counting and tracing** (`Sums`, `Counting`, `Refcounts`, `MarkSweep`). A node's counter is the number of times its
  tree occurs in the trees of all stored objects, kept in a uint32 that wraps on increment and stops at zero on
  decrement, as in the source. GC ignores the counters and traces; the two agree.
- **What the store means** (`Plain`, `Meaning`, `StoreRuns`). A plain map of objects, with the set of distinct values and
  the set of distinct scalars interned so far. Every operation, GC and its statistics included, is a function on that.
- **The interning protocol** (`Interning`). The two locked sections of an intern call, and deletions, as steps of a
  machine over the pools' own slots, index and buckets; the pool classes run it.
- **The LRU and its use** (`Recency`, `Lru`, `Coherence`, `Client`). The cache is a class with a map and a recency list of
  shared entries; its meaning is a list of pairs, most recently used first. `Coherence` is the store behind the
  reconstruction cache as a machine of atomic steps of clients and informers; `Client` has the classes that refine it.
  `LockSections` takes its reads and writes apart at their locks.
- **The field index** (`Index`, `IndexRuns`): a class with forward and reverse maps, and its whole runs.
- **Informers** (`Inputs`, `Sessions`, `Informer`). What an informer is sent is a sequence of listed objects and watch
  events; `Inputs` says what each makes of store and index and that the last one of a key decides, `Sessions` is a life
  of lists, watches and re-lists, and the class performs them.
- **All together**. `Interleaving` takes an informer's store step and index step apart, for any number of kinds and runs
  and with clients writing in between; `ClientRuns` runs one cache under clients and informers and reads through its LRU.

Iteration over a Go map is an arbitrary choice of the next key; no result depends on it. Calls the model cannot see
(the API server, rendering a value with "%v", index functions, the hash) are parameters. Recursive methods take the
heap as a ghost parameter so that their contracts need not speak of the object graph.

Where the code and its documentation differ, the model follows the code:

- `labelsMatch` is documented to require every label to be present, but reads an absent label as "". `AsDocumentedIff`
  gives the exact condition under which this makes no difference.
- `refcounts` is documented to count object roots, but counts occurrences, so one object can wrap a counter:
  `WrappingDoesNotFit` gives one, and `Replay` and `Upsert` say exactly when counters stay exact. The documentation also
  says a node can be reclaimed when its counter reaches zero; GC does not look, so a wrapped counter loses no data.
- Upserting an equal object again is documented as idempotent. For pools and roots it always is; the counters are
  unchanged exactly when each has enough to take, or wraps back to where it was (`Refcounts.Returns`). `StoreAgain` is a
  run after which they are not.
- The write-through cache is described as updating the local cache atomically, but an informer's step leaves the
  reconstruction LRU alone: `StaleRead` is a run whose second read is wrong. `ReadsRightIff` gives the exact condition on
  a program: no two of the keys read share a cache key, and informers write none of them. Since a read ensures that an
  informer runs for its kind (cache/cache.go:97-101), a program with the LRU on that reads at all does not meet the second
  half once informers may send any object of the kinds read (`WatchedKindsGoStale`). As long as
  steps are atomic and the keys read do not collide, a read is right when the last write or removal of its key was a
  client's (`CleanReadIsRight`).
- A read fetches from the store and fills the LRU under different locks, and so does a write change the store and then
  invalidate. `RestCoherentIff` gives the exact condition on a program under which the cache is coherent whenever it is at
  rest: no goroutine writes a key that another reads, no informer writes a key that is read, and no key that is read
  shares its cache key with one that is read and written. `LooksRightIff` shows that the same condition decides whether
  every look into the LRU is right. `OtherWriteGoesStale` is a run in which a write or a removal comes between another
  goroutine's fetch and fill: the old object is served until the key is next written or evicted.
- Cache keys join five names with slashes. `LruKeyInjective` shows that slash-free names before the last keep them apart,
  `SlashFreeIsRight` that then every read of a key that informers leave alone is right, and `SlashCollides` that a slash
  can make two keys one.
- A re-list after a broken watch is meant to bring the cache back in step, but never removes: `VanishedSurvives` is an
  object that stays after it vanished from the server, and `RelistExactIff` the exact condition. No object listed, added
  or modified and not deleted since is missing or stale (`ListedIsHeld`, `EventDecides`, `SetStays`).
- Handlers hear of watch events only: objects that a list brings are never announced. `HandlersKnowAllIff` gives the exact
  condition under which a handler that keeps what it is told knows all the informer gathered.
- Clients write the store but not the index. `QuiescentAgrees` shows that the index follows the informers alone, and that
  store and index agree on every key not written by a client since its informer last stored it, if each kind is run once.
- A kind has one informer, but until its first list is done every read starts another run of it (cache/cache.go:318-322).
  `CrossingDisagrees` is a run in which two of them leave the store on one state of an object and the index on another,
  and `AgreeIff` shows that store and index agree whenever they come to rest if and only if each kind is run at most once.

## Model

| member | source | states |
|---|---|---|
| StoreRuns.Replay | store/dedup_store.go:34-205 | From an empty store, for every hash and every sequence of Upsert, Delete, Get, List and GC, each answer is the plain map's (List in some order, each match once; GC's two counts exact); the counters are exact after the last step if and only if every count fits a uint32, provided they fitted before it; and the heaps passed through form a chain that holds at each point exactly the values and scalars the plain store knows |
| StoreRuns.SecondGCRemovesNothing | store/dedup_store.go:147-205 | In any run, a GC with only reads since the previous GC reports zero nodes and zero values removed |
| StoreRuns.GCKeepsObjects | store/dedup_store.go:147-205 | Inserting a GC anywhere in any run changes no object at the end of it |
| StoreRuns.WrappingDoesNotFit | store/dedup_store.go:309-325 | One object with 2^32 nils overflows the count of its nil node |
| StoreRuns.StoreAgain | store/dedup_store.go:44-58 | A run: beside an object with five nils, storing that object leaves the nil counter at the remainder of 2^32 + 5, and storing it once more, which changes neither pools nor roots, leaves it at 0 |
| StoreRuns.StoredIsRead | store/dedup_store.go:44-91 | Into any store, an object of the store's own types is read back exactly as it was, whatever is stored, deleted, listed or collected in between under other keys |
| Plain.SmallFits | store/dedup_store.go:27-30 | Fewer than 2^32 tree positions over all stored objects is enough for every counter to fit |
| DedupStores.DedupStore.Upsert | store/dedup_store.go:44-58 | The plain map gains the canonical object; only the object's own subvalues and scalars are new in the pools; from exact counters, they end as the counts modulo 2^32, and exact if and only if all counts fit; upserting what the key already holds leaves heap and roots identical whatever the counters, and the counters identical if and only if each has enough to take or wraps back, as exact counters always do |
| DedupStores.DedupStore.Delete | store/dedup_store.go:61-73 | The plain map loses the key, the pools are untouched, exact counters stay exact; an absent key changes nothing |
| DedupStores.DedupStore.Get | store/dedup_store.go:76-91 | Returns exactly the plain map's value, and always finds a present key |
| DedupStores.DedupStore.List | store/dedup_store.go:94-142 | Returns each object that passes the kind, namespace, label and field filters once, and no other |
| DedupStores.DedupStore.Filter | store/dedup_store.go:105-137 | Applies the four filters exactly as specified on values |
| DedupStores.DedupStore.GC | store/dedup_store.go:147-205 | Objects unchanged; pools shrink to exactly what the objects mention, one entry per distinct subvalue, non-nil scalar and key, and no slot comes or goes; the removed counts are the drop in entries; with exact counters, the counter keys become the set of live node ids |
| DedupStores.DedupStore.Walk | store/dedup_store.go:164-188 | Marks exactly the nodes and values below an id, on top of what was marked, even when started half-way through its ancestors |
| DedupStores.DedupStore.MarkRoots | store/dedup_store.go:160-192 | Whatever the order of roots, the marks are exactly the live ids whose value some object mentions |
| DedupStores.DedupStore.Decompose | store/dedup_store.go:209-277 | The returned id stands for the canonical value, old ids and slots are untouched, and the distinct values and scalars held grow by exactly the value's own |
| Values.CanonIff | store/dedup_store.go:209-277 | The canonical form of a tree is exactly the stored tree it stands for: same keys, same items in the same order, own types as they are, other integers congruent modulo 2^64, anything else its text |
| Values.CanonRestores | store/dedup_store.go:209-305 | A tree of the store's own types, booleans, strings, int64s, floats and nil, is its own canonical form |
| Values.IntegersWrap | store/intern.go:41-51 | Every other integer becomes an int64 congruent to it modulo 2^64, the same number if and only if it is below 2^63 |
| DedupStores.DedupStore.Reconstruct | store/dedup_store.go:281-305 | Rebuilds the tree the id stands for, so it undoes Decompose up to canonical numbers |
| DedupStores.SortSorts | store/dedup_store.go:260-263 | Sorting entries with distinct keys by key id gives a strictly sorted list of the same entries |
| DedupStores.DedupStore.IncRef | store/dedup_store.go:309-325 | Every counter grows, modulo 2^32, by the occurrences of its node's value in the tree, and only positive ones are created |
| DedupStores.DedupStore.DecRef | store/dedup_store.go:329-347 | Every counter drops by the occurrences of its node's value in the tree, stopping at zero |
| Heaps.Canonical | store/dedup_store.go:253-271 | In every well-formed heap two live ids are equal if and only if the values they reconstruct are |
| Heaps.KidsBelow | store/subtree.go:61-64 | Every child id is positive, live and smaller than its parent |
| Identities.ChainIsOrdered | store/subtree.go:61-64 | In every heap of the chain that `StoreRuns.Replay` passes through, each child id of a live node is positive, live and smaller than its parent, and each value id it mentions is nil or live |
| Heaps.GrownKeeps | store/dedup_store.go:209-305 | Interning anything leaves the reconstruction of every id that was live unchanged |
| Heaps.SubsPresent | store/dedup_store.go:209-277 | Every subvalue of a live id is held by a live id that is no larger |
| Heaps.ReachesIsSub | store/dedup_store.go:164-188 | Following child edges from a root reaches exactly the ids whose value is a subvalue of the root's |
| Identities.NodeIdGone | store/subtree.go:61-115 | In every chain of heaps the store passes through, a node id that left the index never comes back |
| Identities.NodeIdKept | store/subtree.go:33-115 | A tree that is held throughout keeps its id, whatever is interned or collected around it |
| Identities.ValueIdGone | store/intern.go:74-116 | A value id that left the index never comes back |
| Identities.ValueIdKept | store/intern.go:33-117 | A scalar that is held throughout keeps its id |
| Decomposing.DecomposedAgain | store/dedup_store.go:48-48 | Decomposing a value whose parts are all present adds nothing to either pool |
| Decomposing.MapDecomposed | store/dedup_store.go:253-264 | Fields gathered in any order make the node of the whole map |
| Meanings.CountingIsTracing | store/dedup_store.go:147-198 | With exact counters, a counter is positive if and only if its node can be reached from some root |
| Meanings.UpsertCounts | store/dedup_store.go:50-56 | Decrement old, increment new: exact counters are conserved if and only if all counts fit, and none moves when the object is the same |
| Meanings.SameObject | store/dedup_store.go:48-57 | Upserting what the key already holds finds the same root and adds nothing to either pool, whatever the counters |
| Refcounts.DecrementCounts | store/dedup_store.go:329-347 | On exact counters the saturating test never absorbs a decrement |
| Refcounts.WrappedCounts | store/dedup_store.go:309-325 | Counters equal to the counts modulo 2^32 equal the counts if and only if the counts fit |
| Meanings.SameCountersIff | store/dedup_store.go:50-56 | Upserting what the key already holds gives the counters back if and only if each had enough to take or wraps back to where it was, and none was missing |
| MarkSweep.SweptHeap | store/dedup_store.go:190-198 | Sweeping to the marks leaves a well-formed heap with every value unchanged and exactly the mentioned values and scalars |
| MarkSweep.PerfectSharing | store/subtree.go:12-15 | There are as many live node ids as distinct values and as many live value ids as distinct scalars |
| ValuePools.ValueInternPool.Intern | store/intern.go:33-78 | Nil is id 0; any other scalar, normalised, gets the id that holds it, which is new only if no live id did |
| ValuePools.AppendedIff | store/intern.go:65-77 | Appending a value keeps slots and index inverse if and only if the second look does not find it |
| ValuePools.ValueInternPool.InternLocked | store/intern.go:65-77 | The write section looks again and appends only if need be |
| ValuePools.ValueInternPool.DeleteUnreachable | store/intern.go:100-117 | In any order, exactly the values outside the live set are dropped and counted, in slots and index alike; they stay inverse |
| NodePools.SubtreeInternPool.Intern | store/subtree.go:33-65 | Under any hash, an equal node gets the id that holds it and another node a new one |
| NodePools.SubtreeInternPool.Equal | store/subtree.go:150-182 | The field-by-field comparison is equality of nodes |
| NodePools.SubtreeInternPool.Find | store/subtree.go:38-45 | The bucket scan finds a live id holding the node if there is one anywhere in the pool |
| NodePools.FindNodeIff | store/subtree.go:38-57 | Scanning the one bucket of the hash finds an id if and only if it holds the node, under any hash |
| NodePools.AppendedIff | store/subtree.go:50-64 | Appending a node keeps slots and buckets consistent if and only if the second scan does not find it |
| NodePools.SubtreeInternPool.DeleteUnreachable | store/subtree.go:87-115 | Rebuilding the buckets in any order drops, zeroes and counts exactly the unreachable nodes, keeps the others in order, and leaves no empty bucket |
| Interning.NeverTwice | store/intern.go:57-77 | In every interleaving of read sections, write sections and deletions on both pools, slots and index, and slots and buckets, are mutually inverse: no two ids hold equal content, and what an id holds is found under it |
| Interning.SameIdIff | store/subtree.go:36-64 | In every interleaving, two calls for the same content return the same id if and only if no deletion between their deciding sections dropped the first one's id |
| Interning.RecheckNeeded | store/intern.go:69-72 | After two calls for one item both missed, appending without a second look leaves it in the pool twice, in either pool |
| Interning.Execute | store/subtree.go:33-115 | Any enabled steps, performed section by section on the two pool classes, leave their fields as the machine says |
| Unstructured.LabelsMatch | store/dedup_store.go:350-357 | Accepts exactly when every selector label equals the object's, an absent one reading as "" |
| Unstructured.LabelsAre | store/dedup_store.go:119-123 | The labels List compares are those in the object's own metadata.labels, and none if it has none |
| Unstructured.OddLabelsHide | store/dedup_store.go:119-123 | One label that is not stored as a string, or labels that are not a map, hide all labels |
| Unstructured.ListedIff | store/dedup_store.go:105-137 | A stored object is in a listing if and only if it is of the kind, in the namespace if one is given, has each label asked for in its own metadata.labels, an absent one reading as "", and each field asked for at the end of its path |
| Unstructured.AsDocumentedIff | store/dedup_store.go:349-357 | A selector means what its documentation says for all objects if and only if it asks for no empty label |
| Unstructured.FieldMatches | store/dedup_store.go:362-382 | Accepts exactly when the dotted path exists and its text is the wanted one |
| Unstructured.FieldAcceptsIff | store/dedup_store.go:362-382 | A field selector accepts an object if and only if the path leads through maps that have each of its parts, to a string equal to the wanted text or to another value whose rendering is; a path that leaves the maps or misses a part accepts nothing |
| Unstructured.NestAccepted | store/dedup_store.go:374-381 | What lies at the end of a path is compared as it is if it is a string, and by its rendering otherwise |
| Unstructured.SplitJoins | store/dedup_store.go:363-363 | The path parts hold no dot and join back to the path |
| Unstructured.MetaKept | store/dedup_store.go:273-276 | A stored object carries the name it arrived with if and only if that field is not of an exotic type with text |
| Unstructured.KeyIsNamed | cache/informer.go:161-165 | An object with a namespace and a name in its metadata, an absent one reading as "", arrives under exactly these, and carries them once stored |
| Lru.LruCache.Get | cache/lru.go:44-55 | Returns the entry's value and moves it to the front; a miss changes nothing |
| Lru.LruCache.Put | cache/lru.go:59-85 | Updates or inserts at the front; a full cache drops exactly its last entry |
| Lru.LruCache.Delete | cache/lru.go:88-98 | Takes out the key and keeps the order of the rest |
| Lru.RemoveIsWithout | cache/lru.go:96-97 | Removing the linked element by identity removes exactly its key from the contents |
| Recency.RunOk | cache/lru.go:44-98 | At every point of every run keys are distinct and the size is within the capacity |
| Recency.LargerNeverWorse | cache/lru.go:44-98 | On the same run of gets, puts and deletes, a smaller cache's list is a subsequence of a larger one's, the sizes differ by at most the capacities, and every hit of the smaller is a hit of the larger with the same value |
| Recency.HitIsLastPut | cache/lru.go:44-98 | At every point of every run, a hit answers the value last put for the key, with no put or delete of it since |
| Recency.OrderIsRecency | cache/lru.go:44-85 | Over every run the list is strictly ordered by last put or successful get |
| Recency.EvictsOldest | cache/lru.go:70-78 | A put evicts only from a full cache without the key, and then the entry whose last use is oldest, and no other |
| Coherence.LruKeyInjective | cache/cache.go:67-69 | Cache keys of different objects differ when group, version, kind and namespace hold no slash |
| Coherence.SlashCollides | cache/cache.go:67-69 | With a slash in the namespace two objects can share a cache key |
| Coherence.StepCoherent | client.go:154-160 | Every step of a client or an informer leaves the LRU equal to the store on the keys last written by a client, or not at all |
| Coherence.CleanReadIsRight | cache/cache.go:91-132 | In every run of clients and informers, a read answers what the store holds if the last write or removal of its key was a client's, or there was none |
| Coherence.StaleRead | cache/informer.go:241-244 | A write, a read, an informer's write and a read: the second read answers the old object |
| Coherence.ReadsRightIff | cache/cache.go:91-132 | All reads are right in every run if and only if no two of the keys read share a cache key and informers write none of them |
| Coherence.WatchedKindsGoStale | cache/cache.go:97-101 | As a read ensures an informer for its kind, and that may send any object of the kind, some run of any program that reads has a wrong read |
| Coherence.SlashFreeIsRight | cache/cache.go:67-69 | In every run that reads only keys without slashes before the name, and that informers leave alone, all reads are right |
| LockSections.RestCoherentIff | cache/cache.go:108-122 | Over all interleavings of the locked sections of a program, given by which goroutine may read, write and watch which keys: the cache is coherent whenever it is at rest if and only if no goroutine writes a key that another reads, no informer writes a key that is read, and no key that is read shares its cache key with one that is read and written |
| LockSections.LooksRightIff | cache/cache.go:108-115 | Under the same condition and no other, every look into the LRU in every run finds nothing or what the store holds at that moment |
| LockSections.OtherWriteGoesStale | cache/cache.go:117-121 | A run from an empty cache: a write, half a read, another goroutine's write or removal, and the fill leave the LRU with the old object when all calls are over |
| LockSections.SectionsMakeSteps | client.go:154-156 | The sections of a read, or of a write or removal, that nothing interrupts make up the atomic step |
| Client.Cache.Get | cache/cache.go:91-132 | Answers from the LRU or the store and fills the LRU exactly as the machine's read step |
| Client.Cache.InvalidateLRU | cache/cache.go:82-86 | Removes the object's entry and nothing else; a disabled LRU is left alone |
| Client.DedupClient.WriteThrough | client.go:193-207 | The tail of Create, Update and Patch: stores the returned object under the namespace and name in its own metadata and invalidates, so that both the store and the next read through the LRU give its canonical form; every object stays under its own key |
| Client.DedupClient.Delete | client.go:281-290 | Removes from store and LRU, keeping every object under its own key |
| Client.DedupClient.DeleteAllOf | client.go:321-338 | Removes, in any order, the key each listed object itself carries; if objects carry their keys, exactly those of the kind, and namespace if given, are gone |
| Client.ReadYourWrite | client.go:193-207 | Through a cache of any size and contents, an object of the store's own types that is written through is read back under its namespace and name exactly as it was, and after a deletion it is not found |
| ClientRuns.RunOwnKeys | client.go:141-155 | Over every run of client writes, deletions and informer inputs from an empty store, every object keeps the key it carries |
| ClientRuns.Replay | cache/cache.go:91-132 | From an empty cache, every run of reads, writes through, deletions, deletions of whole kinds and informer inputs is a run of the machine, its reads answer as the machine does, and, with plain names, its objects are those of a plain map in which a deletion of a kind removes exactly that kind |
| ClientRuns.ReadsArePlain | cache/cache.go:91-132 | In every such run whose read keys do not collide and are left alone by informers, each read answers what the plain map holds |
| Indexes.Indexer.AddIndex | cache/index.go:47-59 | Registers a function, or refuses a second one for the same kind and field and changes nothing |
| Indexes.Indexer.Lookup | cache/index.go:62-84 | Returns, once each, exactly the keys of the kind whose latest object had the value in the field under the function registered when it was indexed |
| Indexes.Indexer.UpdateIndex | cache/index.go:88-147 | Replaces what is indexed for the key, keeping forward and reverse maps mutually inverse and no empty key set |
| Indexes.Indexer.RemoveIndex | cache/index.go:150-174 | Takes out everything indexed for the key and nothing else |
| Indexes.UnpostRemoves | cache/index.go:99-107 | Deleting one entry removes that entry only and leaves no empty set behind |
| IndexRuns.Perform | cache/index.go:47-174 | Any registrations, updates and removals, in any order, leave functions and latest objects as their fold |
| IndexRuns.FirstStays | cache/index.go:47-59 | A function is the registered one if and only if it was the first offered for its kind and field |
| IndexRuns.RunIsLatest | cache/index.go:88-174 | A key is indexed with an object if and only if that was its last update and no removal came after |
| IndexRuns.LookupAfter | cache/cache.go:288-301 | With all functions registered first, any updates and removals leave an index in which Lookup returns, once each, exactly the keys of the kind whose latest unremoved object has the value among what the first function registered for the field gives |
| Informers.GVKInformer.Put | cache/informer.go:159-170 | From any state, the object is in the store in canonical form, and in the index as it arrived, under the namespace and name in its own metadata; nothing else changes |
| Informers.GVKInformer.List | cache/informer.go:145-173 | Folds the listed items into store and index, or changes nothing on an API error; objects keep their own keys |
| Informers.GVKInformer.HandleEvent | cache/informer.go:211-289 | Fails exactly on error events and foreign objects; an object added or modified is then in store and index under its own namespace and name, one deleted in neither; the i-th new call tells the i-th handler: OnDelete for a deletion, OnAdd for an addition, for a modification OnUpdate with the object the store held, or OnAdd if it held none; other events tell nobody |
| Informers.GVKInformer.WatchLoop | cache/informer.go:176-208 | Handles events in order up to the first failing one; the result is their fold, and replaying what any one handler was told gives the same arrivals |
| Informers.GVKInformer.Run | cache/informer.go:78-142 | If the first list fails nothing changes and it is not synced; otherwise the fold of the first list, its watch, and then of every re-list that succeeds and every watch after it; objects keep their own keys; replaying what any one handler was told gives what the watches alone bring |
| Sessions.HandlersKnowAllIff | cache/informer.go:153-170 | A handler that keeps what it is told ends with just what the informer gathered, whatever events come, if and only if no list has an object in it |
| Informers.FromEmpty | cache/informer.go:78-289 | From an empty store and index with functions registered first, any sessions of lists and watches leave the store equal to the fold of what arrived in canonical form, every object under its own key, and Lookup returns, once each, exactly the objects of that fold whose field has the value |
| Inputs.LastDecides | cache/informer.go:211-289 | From any state, store and index hold for a key what its last input says, and what they held before if there was none |
| Inputs.EventDoes | cache/informer.go:221-289 | From any state, an added or modified object is held under the key it carries, in canonical form in the store and as it arrived in the index; a deleted one is in neither; no event changes any other key |
| Inputs.FoldMatches | cache/informer.go:153-289 | Inputs keep store and index in agreement, and both hold what arrived |
| Inputs.FoldOwnKeys | cache/informer.go:159-168 | Inputs keep every stored object under the key it carries |
| Inputs.ListOnlyAdds | cache/informer.go:159-170 | A list removes nothing: a key is present afterwards if and only if it was before or is listed, and unlisted objects are unchanged |
| Inputs.RelistExactIff | cache/informer.go:134-140 | A re-list leaves exactly the listed objects of the kind if and only if none had vanished |
| Sessions.LastSession | cache/informer.go:89-142 | Over every sequence of sessions, the last one that touched a key decides what is held |
| Sessions.ListedIsHeld | cache/informer.go:89-170 | An object listed in some session, whose key is neither listed again nor in an addition, modification or deletion that a watch gets to afterwards, is held with that listing in store and index |
| Sessions.EventDecides | cache/informer.go:89-289 | If an addition or modification is the last a watch gets to of its key, and no later session lists or touches it, the object is held in that state; if a deletion is, it is gone from store and index |
| Sessions.SetStays | cache/informer.go:89-289 | An object listed, added or modified and not deleted since is neither missing nor stale: store and index hold it as it was last sent, across re-lists |
| Sessions.UntouchedStays | cache/informer.go:159-170 | A key that no list holds, and no event that a watch gets to is about, is as it was |
| Sessions.VanishedSurvives | cache/informer.go:134-170 | An object listed once and gone from the server by the re-list is still held |
| Interleaving.QuiescentAgrees | cache/informer.go:238-241 | At every quiescent point of every interleaving of clients and of informers, each kind run at most once: an indexed value is found exactly for the arrivals that each kind's informer would have gathered alone; the store holds their canonical form on every key no client wrote since; without such keys store and index agree |
| Interleaving.LastStepDecides | cache/informer.go:238-270 | In every interleaving of clients and any runs of informers, the store holds for a key what the last step that wrote or removed it says |
| Interleaving.WrittenIff | client.go:154-156 | The keys on which store and index may differ at rest are exactly those that a client wrote or removed and no informer has stored or removed since |
| Interleaving.InputsAreBrought | cache/informer.go:159-208 | What a kind's informer would gather alone is what the steps brought of that kind, in order |
| Interleaving.SessionsAtRest | cache/informer.go:78-142 | At such a point, a kind whose informer went through some sessions is held as if it had gone through them alone |
| Interleaving.AgreeIff | cache/cache.go:318-322 | Store and index agree at every quiescent point of every interleaving of a set of runs of informers if and only if each kind is run at most once |
| Interleaving.CrossingDisagrees | cache/cache.go:318-322 | Two runs of one kind, the second to reach the store the first to reach the index, leave the store on one state of the object and the index on the other |
| Interleaving.Execute | cache/informer.go:238-277 | Any enabled steps, performed one by one on the store and the index, leave both as the machine says |
| Interleaving.Serve | cache/index.go:62-84 | From an empty store and functions registered first, after any interleaving that comes to rest with each kind run at most once, Lookup returns, once each, exactly the objects of the kind that its informer would have gathered alone and whose field has the value |

## Left out

- Go's memory: stored trees are values, so a caller that changes an object it got from the LRU is not modelled.
- Interleavings inside one store operation: its mutex makes each operation one step; only interning, the informers' two-step writes and the cache's reads and writes are taken apart.
- NaN, which as a map key is never found again, and the sign of a float zero, which Go's equality ignores.
- The bytes of the FNV-1a hash: any function of the node serves.
- The "%v" text of values outside the store's type switch: it arrives as a string.
- The accessors of Unstructured (`GetNamespace`, `GetName`, `GetLabels`) come from k8s.io/apimachinery v0.29.3, which is not part of this model: they are taken to read strings nested in `metadata`, anything else giving "" or no labels.
- API calls, retries, backoff, contexts, codecs, schemes, RESTMapper, typed lists, subresources and client options.
- SharedStoreManager and the per-client LRU: nothing ever puts an object into the latter.
- Cache.List's translation of selectors, and InformerMap: the store's own filters are modelled, and the map repeats the double-checked pattern of the pools.
- Pool and LRU length accessors, and GC's duration.
- Client.DedupClient.WriteThrough: models the case where the API server's answer converts; on an error nothing local changes.
- Informers.GVKInformer.AddEventHandler: handlers are numbered and their calls logged; what they do is outside.
- DedupStores.DedupStore.IncRef: visits the children of maps and slices through one list, where the source has a loop for each.
- Informers.GVKInformer.Run: runs to the end of its sessions; a cancelled context is their end, and waiting between them is left out.
- ClientRuns.Replay: says nothing of the index, which clients never touch and `Interleaving` covers.
