# jvspatial: a verified model of its core

jvspatial keeps an object graph of nodes and edges in a document database. These Dafny files model the
parts of it whose correctness is not visible in any one function, and prove what they promise. Running
`dafny verify dfyconfig.toml` checks everything.

| files | component | main results |
|---|---|---|
| MongoQuery, QueryReference, SqlText, Translator, SqlMeaning, TranslationTheorems, TranslatableForms, EmittedForms (with LexOrder) | the compiler from Mongo-style queries to SQL | the emitted text reads back as exactly the intended tree, its placeholders are $1..$n in order, and its three-valued answer agrees with the two-valued in-memory matcher |
| EdgeLists | edge lists of nodes under concurrent tasks | no interleaving of adds and merging saves loses or invents an edge; no deadlock |
| PathLocks | the lock table with eviction | mutual exclusion for all runs over a set of keys exactly if the table has room for them; held locks stay; the table stays bounded |
| BfsLayers, FollowedEdges, QueueOrder, SubgraphBfs | bounded breadth-first expansion | nearest first under all caps; exactly the ids within the depth limit if and only if the node limit has room for them; exactly when the truncation flag is set |
| CacheLines, CacheInclusion, CacheOverrun, CachingDatabase | the read-through cache | every wrapper operation answers as the backend would; enlarging a cache from n to m entries loses no hit in any run with batches of at most b ids if and only if b <= m - n + 1 |
| SortedFind, KeysetPaging, ObjectPagers, NodesBulk, BulkLimit | sorted find, cursor pages, numbered pages, batch traversal | pages are the consecutive slices of the full sorted result, with the exact condition on sort specification and filter; a batch equals one request per id, with the exact condition on its limit |
| TempNames, AtomicWrite | the crash-safe write and its orphan sweep | at every point a crash leaves the old content or one complete payload; a returned write is durable exactly if its directory existed before |
| GraphValidator (with SetListing) | the graph audit | the worklist searches report exactly the declarative sets, and these are the documented ones under exact conditions |
| Migrations | schema migration chains | chains ascend, override by inheritance, fail before running, and upgrading in stages gives every record what upgrading at once gives, whatever the steps do, exactly when the first stage lands |

Loops over mutable state are methods proved against functions on values; the theorems are about those
functions. Tasks that interleave (EdgeLists, PathLocks, AtomicWrite) are state machines stepped in any
order. Clocks, failing system calls, the row a backend query picks and the order in which tasks run are
arbitrary.

## What the proofs turned up

Where code and documentation disagree the model follows the code.

- A `$not` over a comparison matches a record without the field in memory but not in SQL
  (`NegatedComparisonExactIff` says exactly when the two agree).
- Inside `$elemMatch`, an operator on the element itself that is not a comparison and has a scalar operand
  raises `KeyError` instead of falling back, unless something before it falls back (`RaisesIff`); a null
  operand on a named sub-field compiles to a test that is never true, which is wrong exactly for elements
  without the sub-field (`ElemNullExactIff`).
- A nested empty sub-query such as `$or: [{}]` prints `()`, which no SQL reader accepts
  (`TextReadsBack` is an equivalence).
- Looking a lock up and acquiring it are separate steps; an eviction between them gives two threads the
  same path (`CarelessEvictionBreaksExclusion`). With two threads or more it cannot happen if and only if
  at most `max_locks` paths are in use (`ExclusionIff`).
- `find_many` files its hits before its misses, so a cache of m entries can miss where one of n < m entries
  hits. In runs whose batches ask for at most b ids it never does if and only if b <= m - n + 1
  (`InclusionIff`): batches of two are always safe, and some run with one batch of m - n + 2 ids loses a hit.
- The subgraph search sets its truncation flag for a leftover queue entry, too: with room for just the ids
  within the depth limit a complete result is flagged exactly if an edge list was cut or, listing for
  each id of the layers above the depth limit the far ends of its followed edges that come after it in the
  layers, the last far end of all is listed twice (`Search`, `QueueHolds`, `TriangleIsFlagged`).
- The limit of `nodes_bulk` counts the edges of the whole batch: one id's edges can use up another's share
  (`CrowdedOut`). A batch answers as single requests would if and only if there is no limit, the limit is 0,
  or at most one id is asked for (`BatchAsAloneIff`).
- A removal writes back the cached copy it edits: a stale copy makes it drop other edges or leave the edge
  in place (`RemovalExactIff`).
- `find_page` remembers only the first sort field and the id, and goes by the direction of the last field.
  A second sort field before the id, or an id sorted the other way first, loses records between pages
  (`VisitsAllIff`).
- `get_page` overwrites an id clause of the filter on later pages (`OffsetExactIff`) and on cursor pages
  (`KeysetExactIff`).
- `parent.mkdir` is not followed by a sync of the directory above, so the first write into a new directory
  can vanish after a successful return (`FirstWriteMayVanish`, `DurableIff`).
- The audit reports of the nodes on a cycle through a Root those next to a Root they share a cycle with
  (`CycleReportIff`): it misses the others (`MissedIff`, `MiddleIsNotReported`) and names Roots with an edge
  to themselves or next to another Root on a cycle (`RootNamedIff`, `RootsNamed`). It counts a node as
  connected by edges in either direction, where the documentation speaks of a path along outbound or
  bidirectional edges: the two agree if and only if no edge leads from a node that has a path to a Root to
  one that has none (`OrphansExactIff`), and a child below the Root already breaks it (`ChildIsNoOrphan`).
  Without any Root it reports neither orphans nor cycles.
- A subclass that registers any step from a version hides all its parents' steps from that version, also
  those to other versions (`OverrideHidesAll`). A step that jumps past the target is run and the record
  stamped with the target; upgrading on from there applies steps meant for older records
  (`OvershootRunsTwice`).

## Model

| member | source | states |
|---|---|---|
| MongoQuery.PlainBetween | jvspatial/db/query.py:350-398 | counting a comparison on a missing field as false (true) below an even number of negations only loses (gains) matches, for queries of any depth |
| MongoQuery.RemaindersAgree | jvspatial/db/_postgres_translate.py:380-392 | the remainder of Python and that of PostgreSQL agree if and only if the quotient is non-negative or whole |
| MongoQuery.WalkLeads | jvspatial/db/query.py:243-273 | reading a dotted path finds exactly the value at the end of the chain of records that the names lead through |
| QueryReference.MatchIsSatisfies | jvspatial/db/query.py:350-528 | the matcher accepts exactly the records that satisfy the query by a second definition, stated by what the fields lead to, which shares no function with it |
| QueryReference.RemainderIs | jvspatial/db/query.py:473-486 | the remainder the matcher compares is the one of the divisor's sign |
| SqlText.ReadWherePrint | jvspatial/db/_postgres_translate.py:509-561 | the printed text, read with NOT over AND over OR and its placeholders resolved against the bound values, gives back exactly the tree if and only if no conjunction in it is empty |
| SqlText.ReadPrinted | jvspatial/db/_postgres_translate.py:264-266 | a printed conjunction followed by anything that does not continue it is read back whole |
| SqlText.Unreadable | jvspatial/db/_postgres_translate.py:509-520 | an empty conjunction anywhere below makes the whole text unreadable |
| SqlText.PlaceholdersOfPrint | jvspatial/db/_postgres_translate.py:118-121 | left to right the placeholders of a text are the next numbers, each once |
| SqlText.PrintConcat | jvspatial/db/_postgres_translate.py:561 | fragments joined with AND print the concatenated conjunction, the later one numbered from where the earlier stopped |
| Translator.ParamBuilder.Add | jvspatial/db/_postgres_translate.py:118-121 | the value is appended and its position, from 1, returned |
| Translator.TranslateComparator | jvspatial/db/_postgres_translate.py:286-319 | emits the text and parameters of the compiled test, falls back exactly where it does, and only ever appends parameters |
| Translator.TranslateIn | jvspatial/db/_postgres_translate.py:322-361 | the same for `$in` and `$nin`: empty, all-string, all-number and mixed lists |
| Translator.TranslateRegex | jvspatial/db/_postgres_translate.py:364-377 | the same for `$regex`; flags other than `i` fall back |
| Translator.TranslateMod | jvspatial/db/_postgres_translate.py:380-392 | the same for `$mod`: two numbers or a fall back |
| Translator.TranslateSize | jvspatial/db/_postgres_translate.py:222-227 | the same for `$size` |
| Translator.TranslateType | jvspatial/db/_postgres_translate.py:395-417 | the same for `$type` over the known names |
| Translator.TranslateAll | jvspatial/db/_postgres_translate.py:485-496 | the same for `$all`: one containment test per scalar, bracketed |
| Translator.TranslateElemMatch | jvspatial/db/_postgres_translate.py:420-482 | the loop over the operand emits one EXISTS over the conjunction of all its pieces, or falls back or raises where one piece does |
| Translator.TranslateElemField | jvspatial/db/_postgres_translate.py:437-474 | one entry of an `$elemMatch` operand |
| Translator.TranslateNot | jvspatial/db/_postgres_translate.py:250-259 | a field-level `$not` emits the negated group of the translation of its operand |
| Translator.TranslateOp | jvspatial/db/_postgres_translate.py:168-262 | one operator of an operator dict, dispatched as in the source |
| Translator.TranslateFieldClause | jvspatial/db/_postgres_translate.py:132-266 | the loop over operators emits the conjunction of all of them, or falls back with the first that does |
| Translator.TranslateLogical | jvspatial/db/_postgres_translate.py:509-526 | `$and`, `$or` and `$nor` join the translations of all sub-queries, or end with the first that has none |
| Translator.TranslateSubs | jvspatial/db/_postgres_translate.py:509-518 | the loop over sub-queries yields texts whose AND-join and OR-join print the conjunction and the disjunction of their trees |
| Translator.TranslateSub | jvspatial/db/_postgres_translate.py:513-518 | one sub-query emits its translation in brackets |
| Translator.TranslateQueryInto | jvspatial/db/_postgres_translate.py:529-561 | the mutually recursive loop emits the conjunction of its entries and binds their values after those already bound |
| Translator.TranslateEntry | jvspatial/db/_postgres_translate.py:536-559 | one top-level entry |
| Translator.TranslateQuery | jvspatial/db/_postgres_translate.py:564-580 | the result is the emitted text and values from empty, or a fall back, or the error |
| SqlMeaning.ComparatorMeaning | jvspatial/db/_postgres_translate.py:286-319 | on a typed field, a comparison is true, false or unknown in SQL exactly as the matcher's two extreme readings say |
| SqlMeaning.InMeaning | jvspatial/db/_postgres_translate.py:322-361 | a typed list test is SQL-true exactly when the value is in the list and unknown exactly when the field is missing |
| SqlMeaning.ModMeaning | jvspatial/db/_postgres_translate.py:380-392 | `$mod` agrees with the matcher on a typed field |
| SqlMeaning.AllMeaning | jvspatial/db/_postgres_translate.py:485-496 | the containment tests are together true exactly when every wanted value is in the list |
| SqlMeaning.ElemMatchMeaning | jvspatial/db/_postgres_translate.py:420-482 | EXISTS is true exactly when some element matches all named sub-fields, for typed elements that need not be records |
| SqlMeaning.OpMeaning | jvspatial/db/_postgres_translate.py:168-262 | every translated operator with a typed operand, nested `$not` included, agrees with the matcher |
| SqlMeaning.FieldMeaning | jvspatial/db/_postgres_translate.py:132-266 | so does a whole field clause |
| SqlMeaning.SubsMeaning | jvspatial/db/_postgres_translate.py:509-526 | so do conjunction and disjunction over any list of sub-queries |
| SqlMeaning.EntryMeaning | jvspatial/db/_postgres_translate.py:536-559 | so does a top-level entry, `$nor` and `$not` flipping the two readings |
| SqlMeaning.QueryMeaning | jvspatial/db/_postgres_translate.py:529-561 | SQL-true means the query matches under the strict reading and SQL-false that it does not under the generous one, at any depth |
| TranslationTheorems.TextReadsBack | jvspatial/db/_postgres_translate.py:529-580 | the emitted text of a translatable query reads back as its tree if and only if it has text and no nested sub-query is empty |
| TranslationTheorems.AndsIntoLargerWhere | jvspatial/db/_postgres_translate.py:571-574 | a fragment ANDed behind another is read as the two conjunctions together: it holds no bare OR |
| TranslationTheorems.PlaceholdersInOrder | jvspatial/db/_postgres_translate.py:118-121 | on every successful translation the placeholders are $1..$n in order, n the number of bound values |
| TranslationTheorems.AnswerCharacterized | jvspatial/db/_postgres_translate.py:529-561 | the SQL answer, read from the emitted text itself, is true exactly when the strict reading matches and false exactly when the generous one does not |
| TranslationTheorems.AnswerSound | jvspatial/db/_postgres_translate.py:529-561 | SQL true implies the matcher accepts, SQL false implies it rejects, for every translatable query and typed record |
| TranslationTheorems.AnswerExact | jvspatial/db/_postgres_translate.py:529-561 | SQL is true exactly when the matcher accepts if every negated comparison finds its field |
| TranslationTheorems.NegationFreeIsSettled | jvspatial/db/_postgres_translate.py:250-259 | a query without `$not` and `$nor` needs nothing more for that |
| TranslationTheorems.NegatedComparisonExactIff | jvspatial/db/_postgres_translate.py:250-259 | for one `$not` over comparisons SQL and matcher agree on the record if and only if the field is present |
| TranslatableForms.TranslatedIff | jvspatial/db/_postgres_translate.py:132-580 | a query is translated if and only if every entry, operator and operand in it is of a translatable form, told by its shape alone; otherwise it falls back or raises |
| TranslatableForms.ElemFieldsRaiseIff | jvspatial/db/_postgres_translate.py:437-474 | an `$elemMatch` operand raises if and only if it has a bare non-comparison operator with a scalar operand behind conditions that are all of a translatable form |
| TranslatableForms.RaisesIff | jvspatial/db/_postgres_translate.py:438-447 | a whole query raises if and only if the translator reaches such an operand before anything of a form it does not translate, below any nesting of `$not`, `$and`, `$or` and `$nor` |
| TranslatableForms.BareElemOperatorRaises | jvspatial/db/_postgres_translate.py:438-447 | a query on which it does |
| TranslationTheorems.ElemNullExactIff | jvspatial/db/_postgres_translate.py:470-474 | for a null operand on any named sub-field and any element SQL answers as the matcher if and only if the element has the sub-field |
| EmittedForms.AnswersAsAsked | jvspatial/db/_postgres_translate.py:529-580 | SQL true implies that the record satisfies the query and SQL false that it does not; where every field below a negation is present SQL returns exactly the records that do |
| EmittedForms.ExistsText | jvspatial/db/_postgres_translate.py:192-198 | `$exists` emits IS NULL for an operand that Python counts as false and IS NOT NULL for every other |
| EmittedForms.ExistsAnswer | jvspatial/db/_postgres_translate.py:192-198 | for every record its SQL is true if and only if the field is present (operand counting as true) or absent (counting as false) |
| EmittedForms.ExistsMatch | jvspatial/db/query.py:436-439 | the matcher answers the same, a null counting as missing |
| EmittedForms.EqualityText | jvspatial/db/_postgres_translate.py:153-162 | null becomes IS NULL, any other simple value an equality of its own kind, read from the column of that name or from the path in the data |
| EmittedForms.NotEqualText | jvspatial/db/_postgres_translate.py:286-311 | `$ne` emits IS NOT NULL for null and else a missing or different field |
| EmittedForms.OrderText | jvspatial/db/_postgres_translate.py:286-319 | `$gt`, `$gte`, `$lt` and `$lte` with a number or string emit that comparison |
| EmittedForms.InText | jvspatial/db/_postgres_translate.py:322-361 | `$in` compares strings as texts, numbers as floats and mixed lists as JSON texts; an empty list is false |
| EmittedForms.NotInText | jvspatial/db/_postgres_translate.py:322-361 | `$nin` accepts a missing field or one not in the list; an empty list is true |
| EmittedForms.RegexText | jvspatial/db/_postgres_translate.py:364-377 | `$regex` without flags matches with case |
| EmittedForms.FlaggedRegexText | jvspatial/db/_postgres_translate.py:364-377 | with flags case counts if and only if there is no `i` among them |
| EmittedForms.ModuloText | jvspatial/db/_postgres_translate.py:380-392 | `$mod` binds divisor and remainder as floats, in this order |
| EmittedForms.TypeText | jvspatial/db/_postgres_translate.py:395-417 | `$type` binds the jsonb_typeof name of the type name |
| EmittedForms.TypeExactIff | jvspatial/db/_postgres_translate.py:395-417 | SQL answers `$type` as the matcher except, exactly, for `number` on a number, `double` on a whole number, `int` and `long` on a float or a boolean, and `null` on a missing field |
| EdgeLists.StepKeepsInv | jvspatial/core/context.py:419-427 | every step of every task keeps locks, cached copies, snapshots and stored edges in agreement |
| EdgeLists.StoredGrows | jvspatial/core/context.py:895-934 | one step never removes a stored edge, and only the holder of the node's guard changes them |
| EdgeLists.ObjGrows | jvspatial/core/context.py:895-934 | what a save mirrors back covers what others appended to the same object meanwhile |
| EdgeLists.StoredNeverShrinks | jvspatial/core/context.py:1258-1266 | along every run the stored edges of every node only grow |
| EdgeLists.FreeCopyIsStored | jvspatial/core/context.py:419-427 | while a node's guard is free its cached copy holds no unstored edge beyond what it held before the run |
| EdgeLists.ExactlyTheOwedEdges | jvspatial/core/context.py:1258-1266 | when all tasks are done a node stores exactly its old edges, those of successful adds and those of saved objects |
| EdgeLists.NoDeadlock | jvspatial/core/context.py:419-427 | as long as a task is unfinished some task can step |
| EdgeLists.RemovalExactIff | jvspatial/core/context.py:1300-1308 | along every finished run of a removal with nothing else running exactly the edge is taken away if and only if the cached copy it edits agrees with the stored list or the edge is not stored |
| EdgeLists.RemovalAnswers | jvspatial/core/context.py:1300-1308 | a removal with nothing else running answers whether the node is cached or stored, and stores the copy it found without the edge |
| EdgeLists.AnswersTell | jvspatial/core/context.py:1258-1308 | in every interleaving, removals included, a task that answers true found its node and one that answers false did so because the node was neither cached nor stored before |
| PathLocks.PathLockManager.TryAcquire | jvspatial/db/_path_locks.py:84-86 | a non-blocking acquire succeeds exactly on a free lock |
| PathLocks.PathLockManager.EvictIdleLock | jvspatial/db/_path_locks.py:77-95 | exactly the oldest entry with an idle lock is dropped, if there is one, and no lock changes hands |
| PathLocks.PathLockManager.GetOrCreateLock | jvspatial/db/_path_locks.py:56-75 | returns the registered lock or registers an unused one; its entry is then the last, the others keep their order, and all stay but, in a full table without the key, the first entry nobody holds |
| PathLocks.LookUpKeepsTable | jvspatial/db/_path_locks.py:56-95 | a lookup keeps keys and locks distinct and every held lock registered, and adds nothing but the requested key |
| PathLocks.TableByLastUse | jvspatial/db/_path_locks.py:61-75 | along every run the table stands in the order in which its keys were last looked up |
| PathLocks.LeastRecentIdleGoes | jvspatial/db/_path_locks.py:77-95 | whatever the run, an evicted entry is, of those nobody holds, the one whose last lookup is the longest ago, dropped for a new key in a full table; all others stay |
| PathLocks.HeldLockNeverDropped | jvspatial/db/_path_locks.py:77-95 | no step drops an entry whose lock is held |
| PathLocks.MutualExclusion | jvspatial/db/_path_locks.py:97-105 | no two threads are ever inside one key in runs that evict no lock handed out and not released |
| PathLocks.CarelessEvictionBreaksExclusion | jvspatial/db/_path_locks.py:97-105 | that hypothesis is the weakest: any first violation extends to two threads inside one key |
| PathLocks.FewKeysAreCareful | jvspatial/db/_path_locks.py:70-75 | runs over at most `max_locks` keys satisfy it |
| PathLocks.MutualExclusionForFewKeys | jvspatial/db/_path_locks.py:56-105 | so exclusion holds for them outright |
| PathLocks.ExclusionIff | jvspatial/db/_path_locks.py:56-105 | all runs of so many threads over a set of keys are exclusive if and only if there is at most one thread or there are at most `max_locks` keys |
| PathLocks.TableBounded | jvspatial/db/_path_locks.py:61-95 | the table never exceeds the larger of `max_locks` and the number of threads |
| BfsLayers.VisitFront | jvspatial/core/graph_expansion.py:244-273 | visiting and expanding the front of the queue keeps the layering |
| BfsLayers.NearerOnesVisited | jvspatial/core/graph_expansion.py:240-243 | wherever the search stops, an id is in the result only with all ids of smaller distance |
| BfsLayers.CompleteSearch | jvspatial/core/graph_expansion.py:240-273 | with the queue empty exactly the ids within the depth limit are visited |
| BfsLayers.BallIsPaths | jvspatial/core/graph_expansion.py:228-273 | within so many hops means at the end of a path of that length at most |
| FollowedEdges.CapKeepsEarliestKeys | jvspatial/core/graph_expansion.py:59-76 | under the edge cap no followed edge has a later sort key than one left out |
| FollowedEdges.CanonicalFirst | jvspatial/core/graph_expansion.py:59-76 | by id prefixes alone: followed edges come, and are kept under the cap, in the order App, Agents, Root, other nodes, no far end, and within one of these by edge id |
| FollowedEdges.NextIff | jvspatial/core/graph_expansion.py:49-57 | the search goes from a stored node to the other end of each of its followed edges |
| QueueOrder.LayersAreBall | jvspatial/core/graph_expansion.py:265-273 | the layers, defined by the sorted edge lists alone, list exactly the ids within so many hops, each once |
| QueueOrder.QueueHolds | jvspatial/core/graph_expansion.py:240-273 | without a node limit the queue holds over time, in this order, the root and for each id of the layers above the depth limit the far ends of its followed edges that are not among the ids up to it |
| QueueOrder.LastRepeatsIff | jvspatial/core/graph_expansion.py:240-273 | so the id queued last is a repeat exactly if the last of these occurs among them before |
| SubgraphBfs.FollowEdges | jvspatial/core/graph_expansion.py:265-273 | the loop records exactly the stored followed edges and queues every unseen far end one level deeper |
| SubgraphBfs.Expand | jvspatial/core/graph_expansion.py:256-273 | expanding an id queues all its unseen neighbours in the graph of followed edges and flags a cut list |
| SubgraphBfs.VisitOne | jvspatial/core/graph_expansion.py:244-273 | one visit keeps the layering and the record of edges met |
| SubgraphBfs.Search | jvspatial/core/graph_expansion.py:228-273 | terminates within the node limit, nearest first, each id at its true distance; returns exactly the ids within the depth limit if and only if the node limit has room for them; the flag is set if and only if it has not, or an edge list was cut, or there is just room and the last id that the layers reach is reached twice |
| SubgraphBfs.StoppedAtLimit | jvspatial/core/graph_expansion.py:240-246 | with room for just the ids within the depth limit the search is stopped if and only if the last id that the layers reach is reached twice |
| SubgraphBfs.TriangleIsFlagged | jvspatial/core/graph_expansion.py:240-243 | for every depth from 2 on, a triangle returned whole and uncut that is flagged with room for three ids and not with room for four |
| SubgraphBfs.EdgesHaveBothEnds | jvspatial/core/graph_expansion.py:265-273 | without the node stop every returned edge with a far end has both ends in the result |
| CacheLines.GetKeeps | jvspatial/db/_cache.py:103-116 | a lookup keeps the lines distinct, coherent and within the limit |
| CacheLines.PutKeeps | jvspatial/db/_cache.py:118-128 | filing a line keeps them distinct and within the limit and stores that line |
| CacheLines.LargerCacheKeepsHits | jvspatial/db/_cache.py:103-134 | without a TTL, over the same single-key reads, writes and invalidations, a smaller cache holds the newest lines of a larger one |
| CacheLines.BatchOfOneIsRead | jvspatial/db/_cache.py:198-244 | a batch of one id acts on the cache as a single read |
| CacheInclusion.BatchIsRecent | jvspatial/db/_cache.py:213-243 | a batch keeps the lines in the order in which their keys were last touched, and loses a key only from a full cache |
| CacheInclusion.FullIncludes | jvspatial/db/_cache.py:122-128 | a full cache of m entries lacks nothing that one of n holds if no more than m - n + 1 keys were last touched at once |
| CacheOverrun.OverrunLoses | jvspatial/db/_cache.py:217-243 | for all 0 < n < m a run from empty caches with one batch of m - n + 2 ids after which n entries hold an id and m do not |
| CacheOverrun.InclusionIff | jvspatial/db/_cache.py:103-243 | for 0 < n < m: in all runs of reads, writes, invalidations and batches of at most `width` ids m entries hold all that n hold, if and only if `width` <= m - n + 1 |
| CachingDatabase.CachingDatabase.constructor | jvspatial/db/_cache.py:73-94 | starts empty and coherent |
| CachingDatabase.CachingDatabase.CacheGet | jvspatial/db/_cache.py:103-116 | finds a line exactly if the key has one that has not run out; drops an expired line, promotes a live one |
| CachingDatabase.CachingDatabase.CachePut | jvspatial/db/_cache.py:118-128 | the line becomes the newest, with the TTL counted from now, and the oldest ones make room |
| CachingDatabase.CachingDatabase.MakeRoom | jvspatial/db/_cache.py:126-128 | the eviction loop leaves the newest lines and counts the rest |
| CachingDatabase.CachingDatabase.Invalidate | jvspatial/db/_cache.py:130-134 | removes the key's line and counts it |
| CachingDatabase.CachingDatabase.Get | jvspatial/db/_cache.py:161-178 | answers what the backend holds, absences included, whatever the clock, limit and TTL; it is a hit only from a line that has not run out, and a miss files the answer; one hit or miss is counted |
| CachingDatabase.CachingDatabase.Save | jvspatial/db/_cache.py:150-159 | writes through under the id, or the alternative one where there is none, files the record and stays coherent |
| CachingDatabase.CachingDatabase.Delete | jvspatial/db/_cache.py:180-184 | deletes and drops the line |
| CachingDatabase.CachingDatabase.FindOneAndDelete | jvspatial/db/_cache.py:270-279 | the removed record's line goes, and coherence is kept |
| CachingDatabase.CachingDatabase.FindOneAndUpdate | jvspatial/db/_cache.py:281-297 | the updated or upserted record is the newest line, and coherence is kept |
| CachingDatabase.CachingDatabase.BulkSave | jvspatial/db/_cache.py:246-254 | the records are stored and then filed in their order, and coherence is kept |
| CachingDatabase.CachingDatabase.LastWins | jvspatial/db/_cache.py:246-254 | the row of a record no later one overwrites is that record |
| CachingDatabase.CachingDatabase.FindMany | jvspatial/db/_cache.py:198-244 | the answer, part from the cache and part from the backend, is the backend's own; every distinct id counts as one hit or miss |
| CachingDatabase.CachingDatabase.ReadCached | jvspatial/db/_cache.py:213-226 | the ids answered from the cache and those to ask for split the request |
| CachingDatabase.CachingDatabase.FileFetched | jvspatial/db/_cache.py:231-244 | every id asked for is filed, found or not |
| SortedFind.CompoundOrder | jvspatial/db/database.py:98-119 | the compound key order, missing values last in both directions, is a strict weak order |
| SortedFind.EarlierMeans | jvspatial/db/database.py:98-119 | for numbers and strings: a record comes first if some key puts it first, by value in the direction of the key and with missing values last, and no key before decides |
| SortedFind.SortByInOrder | jvspatial/db/database.py:139-164 | stable sorts from the last key to the first yield that order of the same records |
| SortedFind.FoundAscends | jvspatial/db/database.py:139-164 | with distinct ids and the id among the keys, a find returns each match once in strictly ascending order |
| SortedFind.OrderDetermines | jvspatial/db/database.py:139-164 | such a result is determined by its members |
| KeysetPaging.FindPage | jvspatial/core/context.py:1401-1499 | the method builds the specified query, takes one record more than the page and mints the cursor from the last item |
| KeysetPaging.BuildKeyset | jvspatial/core/context.py:1439-1477 | the branches of the cursor filter for a present and for a missing sort value |
| KeysetPaging.KeysetSelects | jvspatial/core/context.py:1439-1477 | evaluated by the in-memory matcher, the cursor filter accepts exactly the records that follow the cursor's record by first field and id |
| KeysetPaging.FitsOrder | jvspatial/core/context.py:1418-1437 | for fitting sort specifications first field and id order records as all fields together do |
| KeysetPaging.PageFindsRest | jvspatial/core/context.py:1478-1484 | the query of a page finds exactly the records behind its cursor |
| KeysetPaging.PageIsNextSlice | jvspatial/core/context.py:1482-1499 | each page is the next slice of the full sorted result, with the cursor of its last record |
| KeysetPaging.FollowingCursors | jvspatial/core/context.py:1401-1499 | n pages give the first n times the page size records, each once, missing sort values included, and the last page says so after the expected number of calls |
| KeysetPaging.PageShows | jvspatial/core/context.py:1401-1499 | the items of any page match the query and stand by the fields of the specification and then by id in the direction of the first field (by ascending id without a specification), no more than the limit |
| KeysetPaging.OneFieldFits | jvspatial/core/context.py:1411-1420 | one sort field in either direction always fits |
| KeysetPaging.HiddenPair | jvspatial/core/context.py:1433-1437 | for every specification that does not fit there are two sortable records of which the second is behind the cursor and not selected |
| KeysetPaging.VisitsAllIff | jvspatial/core/context.py:1401-1499 | every collection is visited completely for every query and page size if and only if the specification fits |
| ObjectPagers.PagesConcatenate | jvspatial/core/pager.py:154-172 | the numbered pages follow one another without overlap and make up the whole result |
| ObjectPagers.KeysetExactIff | jvspatial/core/pager.py:133-138 | a cursor page is the matching records behind the id, for all collections, if and only if the filter's id clause keeps nothing out |
| ObjectPagers.OffsetExactIff | jvspatial/core/pager.py:176-192 | the id-ordered numbered pages are their slices, for all collections and sizes, if and only if the filter leaks nothing through its overwritten id clause |
| ObjectPagers.NoIdClauseLeaksNothing | jvspatial/core/pager.py:186-187 | a filter without an id clause leaks nothing |
| ObjectPagers.NoIdClauseIsIdle | jvspatial/core/pager.py:133-134 | nor does it keep anything out |
| ObjectPagers.FieldPageByNumber | jvspatial/core/pager.py:193-197 | ordered by a field every page is its slice |
| ObjectPagers.SliceStaysSorted | jvspatial/core/pager.py:199-207 | the second sort of a page changes nothing |
| ObjectPagers.KeysetIsNextPage | jvspatial/core/pager.py:121-148 | the page behind the last id of a numbered page is the next numbered page |
| ObjectPagers.ObjectPager.constructor | jvspatial/core/pager.py:59-75 | the page size is at least one |
| ObjectPagers.ObjectPager.GetPage | jvspatial/core/pager.py:77-215 | refuses a cursor together with a field order; otherwise the items and every counter are those of the cursor or numbered page |
| ObjectPagers.ObjectPager.PageReads | jvspatial/core/pager.py:150-207 | a numbered page shows records by ascending id, or by the field of their context in the direction asked for, missing values last |
| ObjectPagers.BehindShows | jvspatial/core/pager.py:133-148 | a cursor page shows records with larger ids, ascending |
| ObjectPagers.ObjectPager.GetBehind | jvspatial/core/pager.py:133-148 | one record more is fetched to know whether there are more |
| ObjectPagers.ObjectPager.GetNumbered | jvspatial/core/pager.py:150-197 | the page number is brought into range, the counters describe the whole result, the items are those fetched for that page |
| ObjectPagers.ObjectPager.FetchedSlice | jvspatial/core/pager.py:172-197 | the items fetched for a page are that slice of the whole result, ordered by a field always, ordered by id if the filter leaks nothing |
| ObjectPagers.ObjectPager.FetchPage | jvspatial/core/pager.py:172-207 | both fetch branches |
| ObjectPagers.ObjectPager.NextPage | jvspatial/core/pager.py:217-230 | the next page, or nothing and an unchanged pager at the end |
| ObjectPagers.ObjectPager.PreviousPage | jvspatial/core/pager.py:232-245 | the page before, or nothing on the first |
| NodesBulk.AddNewInOrder | jvspatial/core/context.py:1562-1576 | duplicates are dropped and the rest keeps the order of first occurrence |
| NodesBulk.SameOffers | jvspatial/core/context.py:1535-1556 | the batch's one edge query yields each id the same opposite ends as all edges that pass, for all directions and self-loops |
| NodesBulk.SameLookup | jvspatial/core/context.py:1581-1599 | the batch's one node query keeps every node that may be looked up |
| NodesBulk.NoteEdges | jvspatial/core/context.py:1558-1576 | the loop over edges fills every id's list with its deduplicated neighbours |
| NodesBulk.Index | jvspatial/core/context.py:1585-1599 | the nodes that exist and pass, by id |
| NodesBulk.Gather | jvspatial/core/context.py:1601-1610 | the nodes of one id's neighbours in order, up to the limit |
| NodesBulk.NodesBulk | jvspatial/core/context.py:1501-1611 | without a limit every id gets what asking for it alone gives, which mentions no other id |
| NodesBulk.AnswerHolds | jvspatial/core/context.py:1526-1611 | an id's answer holds exactly the nodes that an edge passing the entity and context filters joins it with in a direction asked for and that pass the node filters |
| NodesBulk.CappedAnswer | jvspatial/core/context.py:1601-1610 | under a limit it is the beginning of that, a limit of 0 counting as 1 |
| NodesBulk.BatchIsOneAtATime | jvspatial/core/context.py:1552-1556 | with a limit it still does as long as the limit lets all edges of the batch through |
| BulkLimit.BatchAsAloneIff | jvspatial/core/context.py:1552-1556 | for all collections and filters a batch answers as single requests with the same limit if and only if there is no limit, the limit is 0, or at most one distinct id is asked for |
| BulkLimit.CrowdedOut | jvspatial/core/context.py:1552-1556 | edges of which those of the first id use up the limit, so that the batch finds none of the second's |
| BulkLimit.AloneFinds | jvspatial/core/context.py:1552-1556 | asked for alone, the second id's edge is found |
| TempNames.DecimalRead | jvspatial/db/_atomic.py:52-54 | a printed process id reads back |
| TempNames.OwnerIsRecovered | jvspatial/db/_atomic.py:186-188 | the process id read from a temp name is its writer's for every target name, so a sweep passes over exactly its own process's files |
| TempNames.OwnedIff | jvspatial/db/_atomic.py:186-188 | any file is taken for one's own exactly if the third part from the end of its name is the own process id in digits, leading zeros aside |
| TempNames.Directory.Cleanup | jvspatial/db/_atomic.py:155-198 | exactly the listed temp files of other processes that can be removed go, each counted once; nothing in serverless mode |
| AtomicWrite.StepKeepsInv | jvspatial/db/_atomic.py:104-137 | every step of every writer and sweep keeps targets bound to synced complete payloads |
| AtomicWrite.CrashSafe | jvspatial/db/_atomic.py:87-95 | whenever a crash comes, a target holds what it held before the run or one complete payload written to it |
| AtomicWrite.DurableIff | jvspatial/db/_atomic.py:106-131 | after a return with directory sync no crash brings back anything older if and only if the directory existed before the run |
| AtomicWrite.FirstWriteMayVanish | jvspatial/db/_atomic.py:106-131 | a run from an absent directory that returns, file and directory synced, and may be gone after a crash |
| AtomicWrite.LastWriteSurvives | jvspatial/db/_atomic.py:127-131 | if nothing was published since, exactly that payload survives |
| AtomicWrite.OwnSweepIsHarmless | jvspatial/db/_atomic.py:179-188 | no sweep by the writer's process can touch its temp file |
| AtomicWrite.NotSweptAway | jvspatial/db/_atomic.py:179-188 | while only the writer's process sweeps, a synced write can always be published |
| AtomicWrite.Disk.AtomicWriteBytes | jvspatial/db/_atomic.py:79-137 | whichever calls fail, it is a run of the protocol that returns exactly if none up to the replacement does, with the data in place, and else raises with the target untouched; the temp file is gone unless its removal failed and no other name is touched; with the directory existing and its sync wanted and working the data survives every crash |
| AtomicWrite.Disk.MakeDirectory | jvspatial/db/_atomic.py:106 | the directory is there afterwards, or the call raises with nothing changed |
| AtomicWrite.Disk.Prepare | jvspatial/db/_atomic.py:109-125 | create, write and sync of the temp file succeed exactly if none of them fails and the name is free |
| AtomicWrite.Disk.Publish | jvspatial/db/_atomic.py:127-131 | replace, and the directory synced exactly if that is wanted and works |
| AtomicWrite.Disk.CleanUp | jvspatial/db/_atomic.py:132-137 | the failed write's temp file is gone unless its removal fails |
| GraphValidator.PathExists | jvspatial/core/validate.py:217-244 | a path found exists; one not found does not unless the search was given up, which takes at least 10000 arrows |
| GraphValidator.Component | jvspatial/core/validate.py:174-190 | the worklist reaches exactly what is connected to some Root |
| GraphValidator.ReadEdges | jvspatial/core/validate.py:134-171 | the adjacency lists are exactly the edges in order, and the dangling ids exactly those left out |
| GraphValidator.RootCycles | jvspatial/core/validate.py:193-206 | exactly the Roots' neighbours on directed cycles through them, unless a search was given up |
| GraphValidator.ValidateGraph | jvspatial/core/validate.py:73-214 | orphans are exactly the nodes outside every Root's undirected component; root-cycle nodes are sound, and complete with fewer than 10000 edges |
| GraphValidator.DirectedAre | jvspatial/core/validate.py:152-171 | cycles go along edges that are not bidirectional, between existing nodes where that is checked |
| GraphValidator.LinksAre | jvspatial/core/validate.py:152-171 | connections go along edges, and against bidirectional ones |
| GraphValidator.DanglingAre | jvspatial/core/validate.py:146-160 | an edge is dangling if it lacks an end or, where that is checked, one does not exist |
| GraphValidator.ReportedIffCycle | jvspatial/core/validate.py:193-206 | a Root yields a report exactly when a directed cycle passes through it |
| GraphValidator.CycleReportIff | jvspatial/core/validate.py:193-206 | a node is reported if and only if it is next to a Root with which it shares a directed cycle |
| GraphValidator.MissedIff | jvspatial/core/validate.py:22-23 | of the nodes on a cycle through a Root, which are promised, those are missed that are next to no Root they share a cycle with |
| GraphValidator.RootNamedIff | jvspatial/core/validate.py:193-206 | a Root is reported if and only if an edge leads from it to itself or a Root next to it shares a cycle with it |
| GraphValidator.CyclesExactIff | jvspatial/core/validate.py:22-23 | the report is what is promised if and only if no Root is next to a Root on a cycle and every promised node is next to a Root it shares a cycle with |
| GraphValidator.MiddleIsNotReported | jvspatial/core/validate.py:193-206 | a cycle of four of which the node across from the Root is promised and not reported |
| GraphValidator.RootsNamed | jvspatial/core/validate.py:193-206 | two Roots with edges to one another, both reported without an edge to themselves |
| GraphValidator.OrphansHaveNoPath | jvspatial/core/validate.py:20-21 | every orphan reported has no path to a Root along outbound and bidirectional edges |
| GraphValidator.OrphansExactIff | jvspatial/core/validate.py:20-21 | where the ends of all edges exist, the orphans reported are those documented if and only if no edge leads from a node that has a path to a Root to one that has none |
| GraphValidator.ChildIsNoOrphan | jvspatial/core/validate.py:174-190 | a node below the Root that has no path to it and is not reported |
| Migrations.StepAtIs | jvspatial/core/migrations.py:140-164 | the step from a version is the one with the smallest end of the nearest class that registers any; there is none only if no class does |
| Migrations.ChainWalks | jvspatial/core/migrations.py:126-138 | a chain ascends strictly from its version through the registered steps, only the last reaching or passing the target |
| Migrations.StagedIff | jvspatial/core/migrations.py:126-138 | going by an intermediate version takes the same steps as going at once if and only if the first chain lands on it (or it is the target) |
| Migrations.NothingCrossesLands | jvspatial/core/migrations.py:147-150 | if no step crosses a version, chains to it land on it |
| Migrations.StagesAgree | jvspatial/core/migrations.py:272-282 | a record upgraded in stages equals the record upgraded at once if the first chain lands on the intermediate version and the steps after it do not read the stamp |
| Migrations.StagesAgreeIff | jvspatial/core/migrations.py:126-138 | for given registered versions this holds of all records and all step functions if and only if the first chain lands on the intermediate version |
| Migrations.UpgradeTwice | jvspatial/core/migrations.py:261-264 | a second application changes nothing |
| Migrations.MigratedIff | jvspatial/core/migrations.py:229-233 | a record without a stamp counts as version 1; one below its class's version is migrated exactly if the chain is complete, one at it is left as it is, and it fails exactly if it is ahead or a step is missing |
| Migrations.MigratedThrough | jvspatial/core/migrations.py:261-282 | a migrated record is what the last of its steps returned, each given what the one before returned, stamped with the target |
| Migrations.OvershootRunsTwice | jvspatial/core/migrations.py:128-138 | registrations for which stages and one upgrade differ |
| Migrations.OverrideHidesAll | jvspatial/core/migrations.py:153-160 | a subclass's step to another version hides its parent's |
| Migrations.Registry.Register | jvspatial/core/migrations.py:77-95 | appends the step unless it does not go up or its key is taken |
| Migrations.Registry.ResolveStep | jvspatial/core/migrations.py:140-164 | the search over the resolution order finds that step |
| Migrations.Registry.ChainOf | jvspatial/core/migrations.py:97-138 | the loop returns the chain, refuses a downgrade, or names the version without a step |
| Migrations.Registry.Apply | jvspatial/core/migrations.py:236-282 | the record ends as the chain computes it, stamped; where the migration is refused no step has run and the record is unchanged |

## Left out

- SQL text: keywords, extraction expressions and casts are tokens, not characters; strings compare by code point, not by a database collation; Python floats are reals, so rounding in `float()` and `ceil` is not modelled.
- The meaning theorems assume typed records (`TypedQuery`): `$regex`, mixed-type and null-containing lists, element-level `$elemMatch` operators, JSON nulls and failing numeric casts are translated in the model but given no meaning theorem; `$type` names and `$mod` signs are restricted as `TypedOp` says.
- Field names ending in a newline: the source's pattern accepts them; the model trims the newline where PostgreSQL would not find the field.
- Matcher: an unknown operator, a comparison of unlike types and a non-dict sub-query raise in the source and answer false here; `$regex`, digits given as text to `$size` and upper case in type names are left out; lists and records compare by structure. `TypedQuery` excludes all of these.
- Numeric path segments: the matcher follows them into lists, the sort does not; paths here end at a list.
- translate_sort: it orders by text and has no clean numeric specification.
- EdgeLists: edge lists are sets; the MongoDB and PostgreSQL atomic operators, the request identity map, failing saves and deletions are not modelled.
- PathLocks: fairness and blocking order; a thread holds one path lock at a time.
- SubgraphBfs: payload building and the sorted output; `expand_node`, which only slices a list.
- CachingDatabase: with a TTL only coherence is stated; which lines the cache holds afterwards is stated for caches without one. Operations do not overlap at their awaits; outside writers, `find`, `count` and `find_one` (passed through), statistics snapshots and `clear_cache`. The query of `find_one_and_update` is the row it picks.
- KeysetPaging: the Base64 and JSON form of cursors; sort directions other than 1 and -1; the collection does not change between pages; sort values are numbers or strings of one kind per field.
- ObjectPagers: building the class filter and deserialising records, whose failures drop items from a page; `to_dict`.
- NodesBulk.BatchIsOneAtATime: only while the limit does not cut the edges of the batch; `BatchAsAloneIff` says when a cut changes answers.
- SqlMeaning.ElemMatchMeaning: a null operand on a sub-field is excluded, because SQL never accepts it (`ElemNullExactIff`); so is the field `_` of elements that are no records, which only the matcher gives them.
- SqlMeaning.OpMeaning: `$regex`, lists of mixed types or with nulls, and operands of another type than the field are given no meaning, because PostgreSQL compares them by casts and patterns that are not modelled.
- TranslationTheorems.AnswerSound: only for typed records and queries without an empty nested sub-query, where the two sides differ or no SQL is read.
- EdgeLists.ExactlyTheOwedEdges: runs of adds and merging saves; removals, which are tasks of the same machine, do not conserve edges where they meet stale copies, and are covered alone (`RemovalExactIff`).
- CacheLines.LargerCacheKeepsHits: without a TTL and for single-key operations, which keep even the order of the lines; `InclusionIff` has the batches.
- KeysetPaging.FollowingCursors: for collections Python can sort and specifications that fit; `VisitsAllIff` shows the latter is needed.
- Migrations.StagesAgree: the steps after the intermediate version do not read the version stamp, which the stages change; `StagesAgreeIff` assumes the same.
- NodesBulk: ends of edges that are not strings; node deserialisation.
- AtomicWrite: one directory, made by `mkdir` as one entry of a durable parent; a directory that exists before the run is durable; names compare as strings; an initial target is taken to be synced; distinct writers have distinct temp names, as the random token makes them but for chance.
- TempNames: characters other than ASCII digits that Python's `isdigit` accepts, on which `int` may raise.
- GraphValidator.OrphansExactIff: for edges whose ends exist, which is what the check for dangling edges leaves (`CheckedEndsExist`).
- GraphValidator: the fallback of edge ends to the record's context and the sorting of the reported ids.
- Migrations.Registry.Apply: steps do not raise; a step that raises half-way through the chain ends the migration with what the steps before it did to the record in place.
- Migrations: steps return records; a step that returns something else is refused by the source after the last step.
- The web server, authentication, middleware, configuration, logging, the user interface, other cache backends, exports and printers: no deep invariants.
