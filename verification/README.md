# ByoriDB: a verified model

ByoriDB is a graph database over a byte-keyed store. This project models the parts of it whose
correctness spans many steps, and proves what they promise for every input, every run and every
interleaving:

- **Path search** (`WeightedSearch`, `Hops`/`ShortestPath`, `AllShortestPaths`). Hop-bounded Dijkstra with
  stale heap entries and a work budget that fails rather than truncates; breadth-first search;
  all shortest paths by a multi-parent level search and an enumeration of the parent DAG with an exact cap.
  All three are methods over mutable queues, maps and heaps, proved against walks and paths of the graph.
- **The store as a graph** (`KeyValue`, `Keys`, `Text`, `EdgeScan`, `StorePaths`, `PathAgreement`). The textual
  keys, prefix scans over a sorted table, the strict edge decoder and the neighbour collection, and the
  theorem that a search over a store is a search over its edge set.
- **The string-VID mapping protocol** (`VidMapping`, `VidOccupancy`). Each store access of `resolve_vid` is one
  step of a state machine; any number of clients take steps in any order, crash, and share the store with writers.
  On a store that represents a graph, the numbers handed out are none of the graph's.
- **The login throttle** (`LoginThrottle`). A class over a map of deques, proved against a pure step function,
  with budgets over whole runs.
- **The bulk loader** (`GraphStore`, `LoadRows`, `SortedBatches`, `BulkLoader`, `DegreeCounters`, `LoadedPaths`).
  CSV rows become a graph, as the headings of their columns say; stably sorted batches write that graph's keys,
  whatever the batch size; one pass over the sorted edge keyspace writes the exact degree of every vertex; and the
  searches read back exactly the loaded graph.
- **Distributed paged reads** (`PagedReads`, `KeysetServer`, `Allocations`). Complete-or-error lookups and scans
  against arbitrary servers and against honest ones, keyset pagination as an honest server, and ownership
  of partitions.
- **Ontology closure** (`Ontology`). The depth-capped ancestor search is exactly the transitive closure, in
  the sense of the subclass and equivalent-class rules of section 4.3 of the W3C OWL 2 Profiles
  recommendation.
- **Codecs** (`ProtoScan`, `RowFormat`, `RowCodec`, `Bytes`). Varints and the skipping edge scanner, after
  "Base 128 Varints" and "Message Structure" of the Protocol Buffers Encoding specification; the versioned row
  layout and schema evolution.

Results that go against what one might expect of the code, each with a concrete or general witness and the
exact condition where there is one:

- two concurrent creates of one string can end in a conflict error and an orphaned reverse entry, if graph data
  is written under the winner's number while the loser is checking it (`RaceCanConflict`); they cannot while
  data writes spare the string's free candidates, and its claim whenever a call is checking it
  (`QuietRunIsSafe`, `ClaimIsRecovered`);
- when an admitted attempt finds one free slot in the key table and neither of its keys there, the account takes
  the slot and the evaluated failure of the source goes uncounted, although the comment at
  byoridb-graph/src/auth.rs:264-265 says nothing goes uncounted (`LastSlotGoesToAccount`, reached from the empty
  table by `SourceGoesUncounted`); in every other case it is recorded (`SourceCountedExactly`);
- the whole seconds reported to a refused caller fall short of the wait whenever it is a second or more
  (`ReportedWaitFallsShort`); a clock younger than the window forgets the failures of every earlier tick
  (`YoungClockForgets`), so that a window keeps the account budget in all runs from a time on exactly if the
  window, or the run, starts no earlier than the window's length less one tick (`WindowNeedsOldClock`);
- degree counters skip edges whose type contains a separator (`CountedIffSegment`);
- the field scanner takes the first value of a repeated field and a full decode the last (`ScanAgreesIff`, with a
  witness in `RepeatedFieldDiffers`), and it refuses a cut stream only if the target was not read before the cut
  and the cut falls inside a tag, a varint or a length prefix (`CutStreamExactly`);
- negative one-byte integers and some negative schema versions do not read back (`Int8ReadsBackIff`,
  `VersionReadsBackIff`); a NULL shifts the columns after it, unless its column takes no bytes (`ColumnsLineUp`,
  with a witness in `NullShiftsColumns`); and flags are written for as many columns as are nullable but read for
  all, so that beyond them (any column of a schema without nullable columns, the ninth of nine columns with one
  nullable) a value reads back exactly if the data bit in place of its flag is clear (`ColumnReadsBackIff`, with a
  witness in `NoFlagsMisread`), and a NULL, which leaves no mark, exactly if that bit is set or its type always
  reads as NULL (`NullReadsBackIff`, with a witness in `NinthNullIsLost`).

## How to read the model

- Keys are Dafny strings compared lexicographically; UTF-8 preserves that order, so scans see the same order.
  Values are byte sequences. `Less` is the store's key order.
- Costs are reals with an `Arithmetic` record for the addition, which has to be monotone in its left argument
  and never to decrease it, and a largest finite value; exact and rounded addition both qualify. Negative zero
  is zero.
- A heap is a set of entries from which a minimum is popped. It stays a set because the model proves that no
  entry is pushed twice.
- An edge payload is what it decodes to. Searches take a `ghost universe`, a finite set closed under
  neighbours, for termination; `SearchIsFinite` and `WeightedSearchIsFinite` supply it for every store.
- The VID hash, `compute_partition`, the record encoders, date parsing, the UTF-8 check and the blank-host
  check are uninterpreted parameters, as is the answer of a server to its i-th request. Usernames are folded and trimmed on ASCII.
- The limiter reads its clock at the lock. Whether a credential is rejected, and an account lockout, are
  inputs of a login.
- `StableSort` and `SortByPart` stand for the library sorts; they are specified as stable sorts.
- Text in rows is its UTF-8 bytes.

## Model

| member | source | states |
|---|---|---|
| WeightedSearch.DijkstraShortestPath | byoridb-executor/src/algo.rs:307-420 | An answer is a walk to the target whose cost is minimal over all type-filtered walks within the hop bound (of any length without one), with its vertices and cost; no answer means there is no such walk; every reachable expandable state is expanded exactly once, and none when the start is the target; between different vertices the search succeeds exactly when no reachable expandable state has a corrupt edge or a bad weight, no hop out of a cheapest walk to one overflows, and the expandable reachable states fit the budget; with such data the budget error is returned exactly when they do not; every other error is explained by a corrupt edge, a bad weight, or an overflow on a hop out of a cheapest walk |
| WeightedSearch.FirstVisit | byoridb-executor/src/algo.rs:337-342 | Not expanding the target loses nothing: every walk to the target contains one that meets it only at its end, no longer and no dearer |
| WeightedSearch.PopMinimum | byoridb-executor/src/algo.rs:332-332 | The popped entry is least in the heap order and only it is removed |
| WeightedSearch.MinimumIsUnique | byoridb-executor/src/algo.rs:428-435 | The heap order leaves no choice which entry is popped |
| WeightedSearch.Expand | byoridb-executor/src/algo.rs:353-401 | Relaxing all rows of a settled vertex keeps every distance the cost of a witness walk, every settled distance unchanged, and every hop of a settled state relaxed |
| WeightedSearch.RelaxKeepsHeap | byoridb-executor/src/algo.rs:395-400 | A push never repeats an entry, so stale entries are the only surplus and the heap can be a set |
| WeightedSearch.Settle | byoridb-executor/src/algo.rs:332-336 | A popped entry that is not stale belongs to a state never settled before, at a cost no less than any settled one |
| WeightedSearch.DropStale | byoridb-executor/src/algo.rs:334-336 | Dropping a stale entry keeps every invariant of the search |
| WeightedSearch.DistIsOptimal | byoridb-executor/src/algo.rs:332-402 | When the heap is empty every walk ends in a settled state at a distance no larger than the walk's cost |
| WeightedSearch.ExpandedAtLeast | byoridb-executor/src/algo.rs:332-402 | A state is expanded at the cost of a cheapest walk to it, so an overflow is met on a hop out of a cheapest walk |
| WeightedSearch.ExpandedExactly | byoridb-executor/src/algo.rs:337-351 | The states expanded are exactly the reachable ones that are neither the target nor at the hop boundary, each counted once |
| WeightedSearch.OnlyBadDataFails | byoridb-executor/src/algo.rs:367-392 | With valid weights and no hop out of a cheapest walk overflowing, no failure but the budget's can be reported |
| WeightedSearch.Reconstruct | byoridb-executor/src/algo.rs:404-415 | The predecessor chain always reaches the initial state, and reversed it lists the vertices of a walk whose cost is the recorded distance |
| WeightedSearch.Finish | byoridb-executor/src/algo.rs:404-419 | From an exhausted heap the answer is a cheapest walk, or there is none, and the expanded states are exactly the expandable ones |
| Hops.Leaves | byoridb-executor/src/algo_paths.rs:110-134 | Along any path from the start there is a known vertex, no deeper than its place on the path, that is unexpanded or the path's end |
| ShortestPath.FindShortestPath | byoridb-executor/src/algo_paths.rs:85-137 | Returns a path with as few hops as any within the bound, or None exactly when there is none; the node budget fails, or an unreadable edge, only when more vertices than the budget, or an unreadable one, are nearer than both the bound and the target, and always when they are nearer than the bound and, by two hops, than the target |
| Hops.StopsAlikeWithoutPath | byoridb-executor/src/algo_paths.rs:110-136 | When no path to the target lies within the bound the two conditions are one, so the failures of the search are exact |
| ShortestPath.Visit | byoridb-executor/src/algo_paths.rs:124-133 | Visiting the neighbours of a vertex keeps every recorded depth the length of a trail, and the first discovery of the target is a shortest path |
| ShortestPath.DiscoveryIsShortest | byoridb-executor/src/algo_paths.rs:124-129 | The first discovery of the target is at its distance from the start |
| ShortestPath.ReconstructPath | byoridb-executor/src/algo_paths.rs:258-272 | Following parents back from a discovered vertex yields exactly the trail by which it was discovered |
| AllShortestPaths.FindAllShortestPaths | byoridb-executor/src/algo_paths.rs:150-256 | An Ok result lists exactly the minimum-hop paths within the bound, each once (so the single shortest path is among them); with a path cap it fails exactly when there are more shortest paths than the cap; it is stopped by the node budget or by an unreadable edge exactly when more vertices than the budget, or an unreadable one, are nearer than both the bound and the target |
| AllShortestPaths.ExpandLevel | byoridb-executor/src/algo_paths.rs:181-211 | Expanding a level records for each new vertex its distance and all its predecessors of the level, each once, and finishes the level in which the target appears; it stops only for too many vertices, or an unreadable one, ahead of the target |
| AllShortestPaths.NothingAheadFails | byoridb-executor/src/algo_paths.rs:177-219 | A search that was not stopped has expanded every vertex nearer than the bound and the target, so neither the budget nor an edge could have stopped it |
| AllShortestPaths.Enumerate | byoridb-executor/src/algo_paths.rs:224-255 | The stack loop produces exactly the completions of the target in the parent DAG, or fails exactly when the cap is positive and they are more |
| AllShortestPaths.CompletionsExact | byoridb-executor/src/algo_paths.rs:224-253 | The completions of a partial path are exactly the sequences that continue it down the DAG to the start |
| AllShortestPaths.CompletionsDistinct | byoridb-executor/src/algo_paths.rs:224-253 | No completion is produced twice |
| AllShortestPaths.CompletionsAreShortestPaths | byoridb-executor/src/algo_paths.rs:221-255 | Reversed, the completions of the target are exactly the shortest paths, each once |
| AllShortestPaths.NotMany | byoridb-executor/src/algo_paths.rs:233-239 | A complete list no longer than the cap means that there are not more shortest paths than the cap |
| Text.PrefixIsConvex | byoridb-bulkloader/src/loader.rs:302-309 | Every key between two keys that share a prefix shares it, so a group of keys is contiguous in a sorted keyspace |
| Text.ParseDecimal | byoridb-bulkloader/src/loader.rs:360-362 | Parsing the decimal text of an i64 returns it |
| Text.DecimalExactly | byoridb-executor/src/key.rs:116-144 | A number is written as digits without leading zeros that spell it, after a minus if it is negative |
| Text.ParseExactly | byoridb-bulkloader/src/loader.rs:249-252 | A text is read as a number exactly when it is digits after an optional sign that spell the number, within 64 bits |
| Text.SplitJoin | byoridb-executor/src/algo.rs:247-249 | Splitting at the separator undoes joining, when no segment contains it |
| Keys.KeyFormats | byoridb-bulkloader/src/key.rs:32-86 | When no name contains the separator, the pieces of vertex, tag, edge, reverse edge, counter and reverse mapping keys are the space, the keyspace and the parts in this order |
| Keys.ForwardKeyFormat | byoridb-executor/src/vid.rs:71-73 | The pieces of a forward mapping key are the space, the keyspace and the hexadecimal text |
| Keys.EncodeComponentInjective | byoridb-executor/src/vid.rs:61-69 | The hexadecimal encoding of a string VID determines it |
| Keys.EncodeComponentExactly | byoridb-executor/src/vid.rs:61-69 | Each byte is written as two lower-case hexadecimal digits, the high one first |
| Keys.ForwardKeyInjective | byoridb-executor/src/vid.rs:71-73 | Distinct strings have distinct forward keys |
| Keys.ReverseKeyInjective | byoridb-executor/src/vid.rs:75-77 | Distinct surrogates have distinct reverse keys |
| Keys.MappingKeysStandApart | byoridb-executor/src/vid.rs:71-77 | No mapping key is a vertex key or lies in an edge keyspace of the space |
| KeyValue.KvStore.BatchPut | byoridb-kvstore/src/store.rs:577-593 | A batch leaves the store as writing its pairs one by one in order does |
| EdgeScan.ScanStream | byoridb-kvstore/src/store.rs:898-920 | On a sorted table, starting at the prefix and stopping at the first key without it returns all rows with the prefix, in order |
| EdgeScan.CollectNeighborVids | byoridb-executor/src/algo_paths.rs:24-78 | The two scan loops compute the fold of all selected rows, failing on the first unreadable one |
| EdgeScan.EdgeRowsDecode | byoridb-executor/src/algo.rs:215-265 | The strict decoder accepts the forward and the reverse row of every edge and returns the edge; the type is read from either key |
| EdgeScan.DecodesExactly | byoridb-executor/src/algo.rs:222-265 | The strict decoder accepts a row exactly when its key spells out the ends, type and ranking of its payload, in the order of its keyspace |
| EdgeScan.EdgeTypeExactly | byoridb-executor/src/algo.rs:215-218 | The type of a key is its fourth piece, if it has so many |
| EdgeScan.NeighborsOfAnyStore | byoridb-executor/src/algo_paths.rs:24-78 | Over any store the collection fails exactly when a row of a chosen type under its prefixes is unreadable, and otherwise lists exactly the far ends of those rows |
| EdgeScan.ScannedRows | byoridb-executor/src/key.rs:116-144 | The rows under a vertex's prefix are exactly the rows of the edges that leave (or enter) it, and of no vertex whose number merely starts alike |
| EdgeScan.NeighborsExact | byoridb-executor/src/algo_paths.rs:24-78 | On a store that holds an edge set the collection never fails and lists, once each, exactly the out-neighbours of the chosen types, and the in-neighbours too when bidirectional |
| StorePaths.SearchIsFinite | byoridb-executor/src/algo_paths.rs:110-134 | Over any store the neighbours of known vertices stay in a finite set, so every search ends |
| StorePaths.ScansAreDistinct | byoridb-executor/src/algo_paths.rs:32-49 | Over any store no neighbour is listed twice |
| StorePaths.FindShortest | byoridb-executor/src/algo_paths.rs:85-137 | The search over any store returns a shortest path, or none exactly when there is none within the bound, or is stopped, with the same necessary and sufficient conditions, by its budget or an unreadable edge |
| StorePaths.FindAllShortest | byoridb-executor/src/algo_paths.rs:150-256 | Over any store: exactly the shortest paths, or the path cap exactly when there are more of them, or the budget or an unreadable edge exactly when there is too much, or something unreadable, ahead of the target |
| StorePaths.PathsAreEdgePaths | byoridb-executor/src/algo_paths.rs:24-78 | The paths of a search over a store that holds an edge set are exactly the paths of the edge set |
| StorePaths.OnlyBudgetFails | byoridb-executor/src/algo_paths.rs:111-123 | On a store that holds an edge set a hop search can fail only by its budget |
| StorePaths.BidirectIsSymmetric | byoridb-executor/src/algo_paths.rs:53-77 | A shortest bidirectional path, reversed, is a shortest path the other way, so the lengths agree |
| PathAgreement.FindWeighted | byoridb-executor/src/algo.rs:307-420 | The weighted search over any store: a cheapest walk or none, each expandable state expanded once, success exactly on valid data without overflow within the budget, the budget error exactly beyond it, every failure explained; on a store that holds an edge set the answer is the visits and the sum of the weight properties of a sequence of joined edges of the chosen types, within the bound, and no such sequence has a smaller sum, or there is none |
| PathAgreement.WeightedSearchIsFinite | byoridb-executor/src/algo.rs:332-402 | Over any store the weighted search stays in a finite set of vertices |
| PathAgreement.OffersExactly | byoridb-executor/src/algo.rs:353-387 | On a store that holds an edge set each row scanned is classified as its edge alone says, and every selected edge that leaves the vertex is scanned; HopsAreLegs and BadWeightsExactly say what that is in terms of its properties |
| PathAgreement.HopsAreLegs | byoridb-executor/src/algo.rs:353-378 | On a store that holds an edge set the hops offered at a vertex are exactly the edges of the chosen types that leave it, each at the number in its weight property, or 1.0 when that is missing or no number |
| PathAgreement.BadWeightsExactly | byoridb-executor/src/algo.rs:370-384 | A bad weight is met at a vertex exactly when an edge of a chosen type that leaves it has a negative or infinite number as its weight property |
| PathAgreement.CheapestIsLightest | byoridb-executor/src/algo.rs:307-420 | A walk of least cost is a sequence of joined edges of least sum, with the same vertices |
| PathAgreement.UnreachableHasNoRoute | byoridb-executor/src/algo.rs:307-420 | Where there is no walk within the bound there is no sequence of joined edges within it |
| PathAgreement.NeverCorrupt | byoridb-executor/src/algo.rs:367-367 | A store that holds an edge set is never found corrupt |
| PathAgreement.OnlyWeightsFail | byoridb-executor/src/algo.rs:367-387 | On a store that holds an edge set the data is valid exactly when no selected edge out of an expandable reachable state has a negative or infinite number as its weight property |
| PathAgreement.WalkIsPath | byoridb-executor/src/algo.rs:370-378 | Without weights a walk of any length traces a path of the edge set, each hop costing one |
| PathAgreement.PathIsWalk | byoridb-executor/src/algo.rs:370-378 | Without weights every path of the edge set is the trace of a walk of as many hops |
| PathAgreement.HopsEqualCost | byoridb-executor/src/algo.rs:370-378 | Without weights the cheapest cost, with or without a hop bound, is the hop count of the breadth-first shortest path |
| PathAgreement.NothingTogether | byoridb-executor/src/algo.rs:404-419 | Without weights the weighted search finds nothing exactly when the hop search finds nothing, within the same bound or without one |
| VidMapping.RunIsSafe | byoridb-executor/src/vid.rs:204-298 | In every run of any number of clients, with crashes anywhere and other writers of graph data: a forward entry is a negative number whose reverse entry is its string, mapping entries never change or disappear, and finished calls stay finished |
| VidMapping.NextKeeps | byoridb-executor/src/vid.rs:204-298 | Any single step of any client, crash, start or data write keeps the world consistent and its mapping growing |
| VidMapping.AnswersAgree | byoridb-executor/src/vid.rs:204-298 | Two successful calls, whenever and by whomever made, return the same number exactly when their strings are the same |
| VidMapping.ReadOnlyIsHarmless | byoridb-executor/src/vid.rs:205-234 | A read-only call never changes the store and never meets a corruption error; it can fail only on an overlong string |
| VidMapping.ForwardFoundExactly | byoridb-executor/src/vid.rs:205-230 | A forward entry is answered with its number exactly when it decodes to a negative number whose reverse entry is the string; otherwise the call fails as corrupt |
| VidMapping.ProbeOrder | byoridb-executor/src/vid.rs:86-99 | Probing starts at the hash's candidate, advances by one place at each step, and returns to it only after all 2^63 negative numbers |
| VidMapping.ProbeIndexInjective | byoridb-executor/src/vid.rs:86-99 | No two negative numbers have the same place in the probe order |
| VidMapping.InitialCandidateExactly | byoridb-executor/src/vid.rs:86-88 | The first candidate is negative and differs from the hash in the top bit only |
| VidMapping.ClaimEffect | byoridb-executor/src/vid.rs:255-259 | A claim sets the owner of one surrogate and no other, and no forward entry |
| VidMapping.PublishEffect | byoridb-executor/src/vid.rs:263-270 | A publication sets one string's forward entry and no other, and no owner |
| VidMapping.MappingWritesKeepData | byoridb-executor/src/vid.rs:101-133 | Writing a mapping key does not change which numbers graph data occupies |
| VidOccupancy.OccupiedExactly | byoridb-executor/src/vid.rs:101-133 | On a store that represents a graph the three checks find a number exactly when it is a vertex, the source of an edge, the target of an edge; so it is occupied exactly when the graph uses it |
| VidMapping.QuietRunIsSafe | byoridb-executor/src/vid.rs:235-296 | While data writes spare the first candidates of a string, every claim of the string there stays its first candidate that is free or its own, and every call for it is in probe order; data may be written under the numbers of other strings, and under its own while no call for it is checking them |
| VidMapping.ClaimIsUnique | byoridb-executor/src/vid.rs:235-296 | Then a string owns at most one surrogate, unless all of those candidates were passed over |
| VidMapping.ClaimIsRecovered | byoridb-executor/src/vid.rs:282-294 | Once a string has claimed a surrogate, every later call for it ends with that claim or is still on its way: no conflict, no exhaustion, no other number, while data writes spare its candidates up to the claim |
| VidMapping.NewStringIsRecovered | byoridb-executor/src/vid.rs:282-294 | From any consistent world in which no call for a string has begun and no number is its own, nothing else is needed for its claim to be recovered |
| VidMapping.ResolveVid | byoridb-executor/src/vid.rs:196-297 | An undisturbed call returns the mapped number, or None read-only, or claims and publishes the first candidate that is free or its own, or reports exhaustion exactly when every negative number is occupied or owned by another string; the store it leaves is stated in full |
| VidOccupancy.ResolveSparesGraph | byoridb-executor/src/vid.rs:196-297 | An undisturbed create on such a store: a newly claimed number is no vertex and no end of an edge, every candidate before it is used by the graph or owned by another string, exhaustion means that all are, and the graph stays represented |
| VidMapping.RetryPublishesClaim | byoridb-executor/src/vid.rs:261-271 | A retry after a crash between claim and publication publishes the same surrogate and writes nothing else, when the candidates before it are not free |
| VidMapping.ResolveTwice | byoridb-executor/src/vid.rs:204-230 | Resolving a resolved string returns the same number and writes nothing |
| VidMapping.DisplayUndoesResolve | byoridb-executor/src/vid.rs:303-348 | A number handed out for a string is displayed as that string at any later time of any run |
| VidOccupancy.DisplayExactly | byoridb-executor/src/vid.rs:303-348 | On such a store a negative number with an owner is shown as the owner, a number that is not negative and without an owner as itself exactly when the graph uses it, and anything else is refused |
| VidMapping.RaceCanConflict | byoridb-executor/src/vid.rs:238-294 | For every string there is a run from the empty store in which two creates race, a vertex is written under the winner's number, and the loser ends in a conflict error leaving an orphan reverse entry |
| LoginThrottle.LoginRateLimiter.RetryAfter | byoridb-graph/src/auth.rs:203-240 | The table and the verdict after a consultation are those of the step function whose tightness and budgets are proved below |
| LoginThrottle.LoginRateLimiter.RecordFailure | byoridb-graph/src/auth.rs:244-272 | The table after a failure is that of the step function |
| LoginThrottle.LoginRateLimiter.Login | byoridb-graph/src/auth.rs:464-494 | One login is refused before evaluation, or evaluated and charged to all its keys only when rejected; the keys are those of the account and the source in the sense of AccountKeyExact |
| LoginThrottle.AccountKeyExact | byoridb-graph/src/auth.rs:181-185 | Two names have the same key exactly when, without the blanks around them, they have the same letters in either case |
| LoginThrottle.SpellingIsIrrelevant | byoridb-graph/src/auth.rs:181-194 | Blanks around a name and the case of its letters change neither the verdict nor the table |
| LoginThrottle.OutcomeExactly | byoridb-graph/src/auth.rs:464-494 | Refusal comes before lockout, lockout before the credential, and only a rejected credential adds an entry to a deque |
| LoginThrottle.RefusedExactly | byoridb-graph/src/auth.rs:203-240 | On deques in order an attempt is refused exactly when one of its keys has as many entries in the window as its limit, or when ten thousand keys have one there and one of its own does not |
| LoginThrottle.Expire | byoridb-graph/src/auth.rs:195-199 | Popping from the front leaves the deque from its first entry that has not expired |
| LoginThrottle.FreshIsSuffix | byoridb-graph/src/auth.rs:195-199 | What expiry drops has expired, and the first entry it keeps has not |
| LoginThrottle.AccountBudget | byoridb-graph/src/auth.rs:203-272 | In every run of logins on a monotone clock, whenever it begins, no closed interval as long as the window that starts at the window less one tick or later holds more evaluated failures under the spellings of one account name than its limit |
| LoginThrottle.SourceBudget | byoridb-graph/src/auth.rs:203-272 | The same for a source, when each of its evaluated failures found room in the key table; refused and accepted logins need none |
| LoginThrottle.TwoFreeSlotsSuffice | byoridb-graph/src/auth.rs:252-271 | A run that keeps two slots of the table free gives every failure of every source room |
| LoginThrottle.SourceCountedExactly | byoridb-graph/src/auth.rs:203-272 | The failure of an admitted attempt is the last entry of its source's deque afterwards, unless the table, when it is charged, has exactly one slot left and holds neither key; then the source is not in the table |
| LoginThrottle.LastSlotGoesToAccount | byoridb-graph/src/auth.rs:252-271 | For every configuration and every table with one slot left that holds neither key, the attempt is evaluated, its account takes the slot and its source goes unrecorded |
| LoginThrottle.CrowdFills | byoridb-graph/src/auth.rs:252-271 | A failure under each of n names takes exactly n slots of an empty table, up to the cap |
| LoginThrottle.SourceGoesUncounted | byoridb-graph/src/auth.rs:203-272 | Every source has a run from the empty table whose last login is its evaluated failure and leaves it out of the table |
| LoginThrottle.RunKeepsTable | byoridb-graph/src/auth.rs:203-272 | In every table that a run of logins on a monotone clock reaches, each deque is sorted, in the past, and no longer than its limit, and the table is within its cap |
| LoginThrottle.RetryIsTight | byoridb-graph/src/auth.rs:222-239 | Once the clock has run for a window the wait is exact: the attempt is refused at every time up to and including now plus the wait and admitted at every later time, unless it was refused because the table was full of live keys |
| LoginThrottle.WaitSuffices | byoridb-graph/src/auth.rs:207-239 | For every refusal, a full table included, the attempt is admitted at every time after now plus the wait |
| LoginThrottle.FullTableRefusesExactly | byoridb-graph/src/auth.rs:209-239 | An attempt refused because the table was full of live keys is refused later exactly while the latest entry of every key is in the window, or one of its own keys asks for a wait |
| LoginThrottle.CheckingIsHarmless | byoridb-graph/src/auth.rs:203-240 | Once the clock has run for a window a consultation by anyone changes no later verdict, for every table below its cap and every reachable table at it |
| LoginThrottle.ReportedWaitFallsShort | byoridb-graph/src/auth.rs:473-477 | A retry after exactly the reported seconds is refused if and only if the wait is a second or more, unless the table was full of live keys |
| LoginThrottle.YoungClockForgets | byoridb-graph/src/auth.rs:205-206 | For every configuration and every tick before the window less one, a full budget of failures at the tick and one more at the next are all evaluated, within every window that starts by then |
| LoginThrottle.WindowNeedsOldClock | byoridb-graph/src/auth.rs:205-206 | Every run from one time on keeps the account budget in the window from another time on if and only if one of the two is the window less one tick, or later |
| LoginThrottle.BudgetNeedsOldClock | byoridb-graph/src/auth.rs:205-206 | So every run from a time on keeps the account budget in every window if and only if that time is the window less one tick, or later |
| GraphStore.AddVertex | byoridb-bulkloader/src/loader.rs:176-177 | Writing a new vertex's two pairs makes the store represent the graph with that vertex, and nothing else in the data keyspaces |
| GraphStore.AddEdge | byoridb-bulkloader/src/loader.rs:273-280 | Writing an edge's two pairs makes the store represent the graph with that edge set to the payload |
| GraphStore.TagVidKeyInjective | byoridb-bulkloader/src/key.rs:43-45 | A tag key determines tag and vid even if the tag contains separators |
| GraphStore.EdgeKeyInjective | byoridb-bulkloader/src/key.rs:53-65 | A forward or reverse edge key determines the edge even if its type contains separators |
| GraphStore.OneTagPerVertex | byoridb-bulkloader/src/loader.rs:176-177 | In a represented store a vertex key exists exactly for the graph's vertices, and each has exactly one tag key |
| GraphStore.EdgesMirror | byoridb-bulkloader/src/loader.rs:273-280 | In a represented store forward and reverse keys exist for exactly the same edges, with equal payloads |
| GraphStore.SameGraphSameData | byoridb-bulkloader/src/loader.rs:98-109 | Two stores that represent the same graph agree on every data key |
| GraphStore.CountersKeepGraph | byoridb-bulkloader/src/loader.rs:310-321 | Writing degree counters leaves the represented graph as it is |
| SortedBatches.SortIsStable | byoridb-bulkloader/src/loader.rs:103-103 | The sorted batch is in key order, a permutation of the pending pairs, and keeps the order of pairs of equal keys |
| SortedBatches.SortedBatchSameStore | byoridb-bulkloader/src/loader.rs:98-109 | Any stable sort of a batch leaves the same store as writing its pairs one by one in push order |
| BulkLoader.Loader.constructor | byoridb-bulkloader/src/loader.rs:58-67 | A loader on a space without data starts from the empty graph, with vids from 1 |
| BulkLoader.Loader.AssignVid | byoridb-bulkloader/src/loader.rs:75-83 | A known id keeps its vid; a new one gets the next vid and is recorded |
| BulkLoader.Loader.Flush | byoridb-bulkloader/src/loader.rs:98-109 | The store becomes what writing the pending pairs one by one in push order would make it, and represents the graph loaded so far |
| BulkLoader.Loader.MaybeFlush | byoridb-bulkloader/src/loader.rs:89-94 | The eventual store does not change, and fewer pairs than the batch size stay pending; at every flush the store represents a graph |
| BulkLoader.Loader.LoadNodeRow | byoridb-bulkloader/src/loader.rs:141-180 | One row, including the strict, duplicate, empty-id and encoding-error exits, does to the loaded graph what its meaning says, and the store and pending pairs stay in step |
| BulkLoader.Loader.LoadEdgeRow | byoridb-bulkloader/src/loader.rs:228-282 | The same for an edge row, including dangling endpoints and unreadable rankings |
| BulkLoader.Loader.LoadNodeFile | byoridb-bulkloader/src/loader.rs:114-184 | For every batch size: a completed load names exactly the ids known before and the non-empty cells under the id heading, gives a new id the next vid in row order and one vertex made of its first row, makes no other vertex, and counts first and repeated mentions; a missing heading, or in a strict load an empty or repeated id, or a vertex that cannot be encoded, stops it at that row with the rows before it loaded; on success nothing is pending and the store represents the graph; nothing outside the data keyspaces changes |
| BulkLoader.Loader.LoadEdgeFile | byoridb-bulkloader/src/loader.rs:189-286 | The same for an edge file: after a completed load an edge is in the graph exactly when it was before or a row names it, its source by the cell under the source heading, its target by the one under the target heading, its ranking by the number spelled under the ranking heading or zero; the last row that names it decides its payload, and rows with an unknown end are counted; the reserved type, missing headings, a dangling row of a strict load and an edge that cannot be encoded stop it |
| BulkLoader.Loader.Finish | byoridb-bulkloader/src/loader.rs:293-299 | The pending pairs are written and the degrees counted from scans of the flushed store; the store still represents the graph, and when no edge type contains a separator every in- and out-degree is exact |
| DegreeCounters.ScanKeys | byoridb-bulkloader/src/loader.rs:336-339 | The scan of a keyspace is its keys in key order |
| BulkLoader.BatchSizeIrrelevant | byoridb-bulkloader/src/loader.rs:89-109 | Loads of the same graph into the same store end in the same store, whatever their batch sizes |
| LoadRows.NodeRowsKeepSound | byoridb-bulkloader/src/loader.rs:137-181 | After any rows the id map is a bijection onto the vids 1 to next-1, vertices and edge endpoints are such vids, and the counters count |
| LoadRows.EdgeRowsKeepSound | byoridb-bulkloader/src/loader.rs:224-283 | Edge rows keep the same invariant and hand out no vid |
| LoadRows.NodeRowsExact | byoridb-bulkloader/src/loader.rs:137-181 | After a completed load exactly the ids mentioned are named, the first row that mentions a new id makes its vertex under the next vid, there is no other new vertex, every row is counted, and nothing loaded before changes |
| LoadRows.NodeFileExactly | byoridb-bulkloader/src/loader.rs:114-184 | The row semantics of a node file meet this description for every file and outcome |
| LoadRows.StrictLoadIff | byoridb-bulkloader/src/loader.rs:142-156 | A strict load succeeds exactly when all ids are non-empty, new and distinct and every vertex encodes, and then numbers the rows consecutively |
| LoadRows.EdgeRowsExact | byoridb-bulkloader/src/loader.rs:224-283 | After a completed load exactly the described edges are added, the last row that describes an edge decides its payload, and every row is counted as an edge or as dangling |
| LoadRows.EdgeFileExactly | byoridb-bulkloader/src/loader.rs:189-286 | The row semantics of an edge file meet this description for every file and outcome |
| LoadRows.UnderExactly | byoridb-bulkloader/src/loader.rs:126-135 | The cell read for a heading is the one under the first column with that heading, empty in a row that is too short |
| LoadRows.RankingExactly | byoridb-bulkloader/src/loader.rs:249-252 | The ranking is the 64-bit number spelled under the ranking heading, and zero when there is no such heading, cell or number |
| LoadRows.NodeRowsHalt | byoridb-bulkloader/src/loader.rs:142-156 | Rows after the one that stops a load do not matter |
| LoadedPaths.LoadedStoreHolds | byoridb-bulkloader/src/loader.rs:273-280 | A store that represents a loaded graph holds exactly the graph's edges in the sense of the searches |
| LoadedPaths.SearchesLoadedGraph | byoridb-executor/src/algo_paths.rs:24-78 | The paths a search follows in a loaded store are exactly the paths of the loaded graph |
| DegreeCounters.StreamDegreeCounters | byoridb-bulkloader/src/loader.rs:328-411 | Over any stream, skipping unparsable keys, one counter per maximal run of a group is written with the run's length, whatever the batches; the totals are the keys counted and the counters written |
| DegreeCounters.RunsTally | byoridb-bulkloader/src/loader.rs:347-384 | When equal groups are adjacent there is one run per group, as long as the group is large, and the runs sum to the stream |
| DegreeCounters.GroupHasPrefix | byoridb-bulkloader/src/key.rs:53-65 | An edge key starts with a group's prefix exactly when its edge belongs to the group |
| DegreeCounters.SortedIsGrouped | byoridb-bulkloader/src/loader.rs:302-309 | In a sorted stream of edge keys equal groups are adjacent |
| DegreeCounters.ScanRuns | byoridb-bulkloader/src/loader.rs:328-411 | On a scan of a keyspace that holds an edge set there is exactly one run per group with an edge, its length the number of the group's edges, and the lengths sum to the number of edges |
| DegreeCounters.CountersExact | byoridb-bulkloader/src/loader.rs:328-411 | Afterwards the counter of every edge's group decodes to the number of edges in the group |
| DegreeCounters.CountersTouchOnlyGroups | byoridb-bulkloader/src/loader.rs:365-409 | A key that is not the counter of a group with an edge is left alone |
| DegreeCounters.CounterKeysDistinct | byoridb-bulkloader/src/loader.rs:365-409 | No counter is written twice in a pass |
| DegreeCounters.CountRoundTrip | byoridb-bulkloader/src/key.rs:89-91 | Decoding an encoded count returns it |
| DegreeCounters.CountIsLittleEndian | byoridb-bulkloader/src/key.rs:89-91 | A count is eight bytes, the least significant first |
| DegreeCounters.CountedIffSegment | byoridb-bulkloader/src/loader.rs:355-363 | An edge key is counted, in its own group, exactly when its type contains no separator |
| DegreeCounters.BackfillDegreeCounters | byoridb-bulkloader/src/loader.rs:310-321 | Both passes write every in- and out-degree exactly, report the number of edges and of non-empty groups, and change nothing but counters |
| DegreeCounters.ScanSurvives | byoridb-bulkloader/src/loader.rs:310-321 | Neither pass changes the keyspace that either scans |
| DegreeCounters.BackfillAgain | byoridb-bulkloader/src/loader.rs:302-321 | Running the backfill again leaves the store unchanged |
| PagedReads.LookupPageLimit | byoridb-executor/src/distributed.rs:126-132 | A request is for 1 to 1024 entries while budget is left, and never for more than is left |
| PagedReads.ValidateLookupPage | byoridb-executor/src/distributed.rs:134-151 | A page is accepted exactly when its length, flags and cursor are consistent and the cursor is new |
| PagedReads.LookupPartition | byoridb-executor/src/distributed.rs:614-665 | Against any server an Ok result is the concatenation of its pages up to a final one, holds only entries of the partition and at most the budget; whatever the outcome there are at most as many requests as the budget, each for what the page limit leaves after the entries read so far, from 1 to 1024, and every reply but the last promised more; against an honest server the result is all entries if they fit the budget and the budget error otherwise |
| PagedReads.HonestStep | byoridb-executor/src/distributed.rs:620-664 | Every page of an honest server, however it cuts them, is accepted and leaves the client in step |
| PagedReads.HonestStops | byoridb-executor/src/distributed.rs:620-664 | Against an honest server an unlimited read ends |
| PagedReads.ExecuteLookup | byoridb-executor/src/distributed.rs:603-672 | Against honest servers the result is every entry of every partition in order exactly when each partition fits the budget (or there is none), and otherwise the budget error of the first that does not; against any servers an Ok result is well partitioned and within budget per partition; one generic method for vertices and edges (the edge form is at lines 676-747) |
| PagedReads.ScanPartition | byoridb-executor/src/distributed.rs:534-571 | The page-size subtraction never underflows, at most the limit is returned, and against an honest server exactly the first entries up to the limit |
| PagedReads.FirstExactly | byoridb-executor/src/distributed.rs:574-580 | What a limit leaves is a prefix as long as the limit, or everything if there is no more or no limit |
| PagedReads.FirstOfFirsts | byoridb-executor/src/distributed.rs:574-580 | Cutting every partition first does not change where the whole is cut |
| PagedReads.ExecuteScan | byoridb-executor/src/distributed.rs:524-582 | Over honest servers a scan with limit k is the first k elements of the unlimited scan, for every way the pages are cut |
| KeysetServer.ZeroIsSuccessor | byoridb-storage/src/index.rs:942-947 | Starting at a key with a zero byte appended excludes exactly that key and what lies below it |
| KeysetServer.KeysetIsHonest | byoridb-storage/src/index.rs:925-984 | Keyset pagination over sorted index keys is an honest server, if cursors can be read back |
| KeysetServer.DefaultPage | byoridb-storage/src/index.rs:951-951 | An index page without a limit is one of 1024 entries |
| KeysetServer.ScanVertices | byoridb-storage/src/rpc.rs:759-808 | The chunked, filtered vertex scan answers with the first kept keys from its start up to the page size, a thousand if no limit is asked for, and more exactly when more are kept |
| KeysetServer.ServeScan | byoridb-storage/src/rpc.rs:733-826 | The answer to a scan request, with its cursor, is the page of the keyset server over the kept keys, so an honest reply at every cursor that a scan hands out |
| KeysetServer.ScanIsKeyset | byoridb-storage/src/rpc.rs:733-826 | The keyset server over the kept keys, whose pages ServeScan answers with, is honest |
| Allocations.ValidateAllocations | byoridb-executor/src/distributed.rs:89-124 | Accepted exactly when there are as many allocations as partitions, they name every partition, and each is of the space with hosts that have names and ports from 1 to 65535; then the result is a permutation with partition i+1 at position i; otherwise the error is that of the first fault in partition order, an allocation without hosts having one of its own |
| Allocations.SortedCoverInPlace | byoridb-executor/src/distributed.rs:100-107 | As many allocations as partitions that name all of them name each once, so sorted they are in place |
| Allocations.GroupVidsByPartition | byoridb-executor/src/distributed.rs:179-194 | The groups are exactly the non-empty filters of the input by partition, in input order |
| Allocations.GroupingConserves | byoridb-executor/src/distributed.rs:179-194 | Each vid is in the group of its partition as often as it was given, and in no other group |
| Allocations.GroupingKeepsOrder | byoridb-executor/src/distributed.rs:179-194 | In its group each vid stands behind exactly those of its partition that were given before it |
| Allocations.GroupsAreRouted | byoridb-executor/src/distributed.rs:179-194 | With validated allocations every group goes to the owner of its own partition |
| Ontology.ClassAncestorsOf | byoridb-executor/src/ontology.rs:96-137 | Ok exactly when every class reachable through superclasses and equivalents lies within 15 steps and can be read, cycles allowed; then the classes other than the start, once each, of the least set that holds the start and with a class its superclasses and equivalents; a corruption error names a reachable corrupt class |
| Ontology.ExpandFrontier | byoridb-executor/src/ontology.rs:109-128 | One round takes the classes within n steps to those within n+1 and comes up empty exactly when there are no others |
| Ontology.WithinIsReaches | byoridb-executor/src/ontology.rs:96-137 | The classes of the n-th round are exactly those that a chain of at most n steps leads to |
| Ontology.SearchIsComplete | byoridb-executor/src/ontology.rs:105-108 | When a round adds nothing, the classes seen are the classes reachable |
| Ontology.ReachableIsLeast | byoridb-executor/src/ontology.rs:96-137 | The reachable classes are the least set that holds the start and is closed under the superclasses and equivalents of class records |
| Ontology.ParentsExact | byoridb-executor/src/ontology.rs:110-125 | The classes pushed for a class are the superclasses and the equivalent classes of its record, and none without a record |
| Ontology.VertexClassSet | byoridb-executor/src/ontology.rs:143-171 | The set is the full closure of tags and inferred types although classes already in it are not looked up; it succeeds exactly when every class that is looked up fits the depth cap |
| Ontology.RepresentativeOf | byoridb-executor/src/ontology.rs:43-68 | Succeeds exactly when the pointer chain ends in a representative after fewer than 64 pointers, with that representative |
| ProtoScan.ReadVarintLoop | byoridb-codec/src/vertex.rs:44-55 | The loop returns the value, cut to 64 bits, and the length of the varint a buffer starts with, and nothing if it has none of at most ten bytes |
| ProtoScan.ReadsVarint | byoridb-codec/src/vertex.rs:44-55 | Any varint, canonical or padded, is read back whatever follows it |
| ProtoScan.VarintRoundTrip | byoridb-codec/src/vertex.rs:44-55 | Reading undoes encoding for every 64-bit value and any suffix |
| ProtoScan.NegativeVidTakesTenBytes | byoridb-codec/src/vertex.rs:44-55 | Every negative vid is a ten-byte varint |
| ProtoScan.DecodeEdgeVidProto | byoridb-codec/src/vertex.rs:184-226 | The scanning loop computes the recursive scan that the lemmas below characterise |
| ProtoScan.ScanPasses | byoridb-codec/src/vertex.rs:184-226 | After any whole fields, whatever follows, the scanner has stopped at the first value of the target among them or goes on with what follows |
| ProtoScan.ScanFindsFirst | byoridb-codec/src/vertex.rs:184-226 | On every well-formed field stream the scanner returns the first value of the target, zero if there is none |
| ProtoScan.ScanEqualsDecode | byoridb-codec/src/vertex.rs:184-226 | With the target at most once the scanner returns what a full decode keeps |
| ProtoScan.ScanAgreesIff | byoridb-codec/src/vertex.rs:184-226 | In general it agrees with a full decode exactly when the first and the last value of the target are the same |
| ProtoScan.RepeatedFieldDiffers | byoridb-codec/src/vertex.rs:184-226 | A stream with a repeated field on which the scanner returns 5 and a full decode keeps 7 |
| ProtoScan.CutStreamExactly | byoridb-codec/src/vertex.rs:184-226 | Every prefix of every well-formed stream is refused exactly when the target was not read before the cut and the cut falls inside a tag, a varint or a length prefix, and is otherwise answered with the first value in the whole fields before the cut, or zero |
| ProtoScan.CutParts | byoridb-codec/src/vertex.rs:184-226 | Every prefix of a stream is its first whole fields and a proper part of the next |
| ProtoScan.UnsupportedIsRefused | byoridb-codec/src/vertex.rs:184-226 | A tag of a group or an unassigned wire type after whole fields without the target is refused as such |
| ProtoScan.EdgeVidsRoundTrip | byoridb-codec/src/vertex.rs:149-182 | The fast path reads back both endpoints of every encoded edge, for all i64 |
| ProtoScan.DecodeEdgeDst | byoridb-codec/src/vertex.rs:149-163 | The result is the destination of every encoded edge and, for every well-formed marked stream, its first field 2 or zero; empty data is refused and unmarked data goes to the legacy decoder |
| ProtoScan.DecodeEdgeSrc | byoridb-codec/src/vertex.rs:170-182 | The result is the source of every encoded edge and, for every well-formed marked stream, its first field 1 or zero; empty data is refused and unmarked data goes to the legacy decoder |
| RowFormat.CellRoundTrip | byoridb-codec/src/row.rs:79-182 | A cell is read as what its column gives back: booleans, wider integers and text as they were, a negative one-byte integer 256 higher, a date or date-time as it was or as the parser reads its text, timestamps and fixed strings as NULL |
| RowFormat.TakesExactly | byoridb-codec/src/row.rs:79-182 | A cell is written exactly for values of the right kind within the bounds of the column, and the others are refused as a type mismatch, out of range, or no date |
| RowFormat.FaithfulExactly | byoridb-codec/src/row.rs:79-182 | A column is faithful to exactly the values it takes and gives back as they were |
| RowFormat.SilentCells | byoridb-codec/src/row.rs:124-139 | A timestamp is stored as its eight bytes and a fixed string as its text padded with zeros |
| RowFormat.Int8ReadsBackIff | byoridb-codec/src/row.rs:351-351 | A one-byte integer reads back exactly when it is not negative |
| RowFormat.DayRoundTrip | byoridb-codec/src/row.rs:140-157 | A date reads back |
| RowFormat.MomentRoundTrip | byoridb-codec/src/row.rs:158-182 | A date-time reads back |
| RowFormat.FlaggedTests | byoridb-codec/src/row.rs:197-210 | Setting a column's null flag sets it and leaves every other column's |
| RowFormat.FlagsSizeExactly | byoridb-codec/src/schema.rs:134-139 | The flags are the fewest bytes with a bit for each nullable column |
| RowCodec.RowWriter.SetValue | byoridb-codec/src/row.rs:58-195 | Unknown columns, forbidden NULLs, bad types and ranges are refused, each with its own error, without touching the data; otherwise the cell is appended, the text added to the variable area, and the null flag set |
| RowCodec.RowWriter.Encode | byoridb-codec/src/row.rs:212-239 | Succeeds exactly when every column is set or nullable, with header, version, flags, fixed and variable data in this order, and otherwise names the first column that is neither |
| RowCodec.WriteSchemaVersion | byoridb-codec/src/row.rs:241-263 | Writes the low-order bytes of the version in two's complement, most significant first |
| RowCodec.WidthExactly | byoridb-codec/src/row.rs:241-252 | The version takes the fewest bytes, up to four, in which its absolute value leaves the top bit free |
| RowCodec.HeaderExactly | byoridb-codec/src/row.rs:504-533 | The header is refused exactly for another format, a width of zero or missing bytes, and otherwise ends after the version |
| RowCodec.VersionReadsBackIff | byoridb-codec/src/row.rs:241-263 | A schema version reads back exactly when it is not negative, or at most -2^23 |
| RowCodec.ReadSchemaVersion | byoridb-codec/src/row.rs:312-319 | The loop reads the version that the wrapped 32-bit fold defines |
| RowCodec.WriteRow | byoridb-codec/src/row.rs:58-239 | Setting every column in order succeeds exactly when each column takes its value, and yields the laid-out row; otherwise the error is that of the first column that does not |
| RowCodec.ReadValueFromRow | byoridb-codec/src/row.rs:638-672 | Reading a column checks its flag and sums the sizes before it, refusing what lies outside the data |
| RowCodec.NullReadsBack | byoridb-codec/src/row.rs:327-335 | In every column that the flags have a bit for, a NULL reads back as NULL and no value is taken for one |
| RowCodec.NullReadsBackIff | byoridb-codec/src/row.rs:197-210 | A NULL reads back as NULL if and only if the flags have a bit for its column, or the data bit in place of its flag is set, or its type always reads as NULL and lies in the row |
| RowCodec.NinthNullIsLost | byoridb-codec/src/row.rs:197-210 | A row of nine columns, the last alone nullable, whose NULL is accepted and does not read back |
| RowCodec.ColumnsLineUp | byoridb-codec/src/row.rs:337-343 | The columns before one end where the reader looks for it if and only if each NULL among them stands in a column that takes no bytes |
| RowCodec.ColumnReadsAs | byoridb-codec/src/row.rs:321-346 | With no gap left by a NULL before it, and for text none anywhere, a written value is read as its column gives it back, as NULL if the bit taken for its flag is set, and refused if that bit lies outside the row |
| RowCodec.ColumnReadsBackIff | byoridb-codec/src/row.rs:321-346 | With no gap left by a NULL before it, and for text none anywhere, a value its column is faithful to reads back if and only if the bit taken for its null flag lies in the row and is clear, however many columns and nullable columns there are |
| RowCodec.ColumnReadsBack | byoridb-codec/src/row.rs:321-346 | Such a value reads back whenever the flags have a bit for its column |
| RowCodec.MemorySchemaProvider.AddSchema | byoridb-codec/src/schema.rs:169-174 | The schema is added under its version and the current version stays the highest |
| RowCodec.ReadAll | byoridb-codec/src/row.rs:575-597 | Succeeds exactly when every column of the current schema can be answered, with exactly its columns, each answered from the row or by default |
| RowCodec.ReadRow | byoridb-codec/src/row.rs:504-558 | The row is opened by the version in its header; missing headers and unknown versions are refused |
| RowCodec.RowEvolves | byoridb-codec/src/row.rs:575-597 | Under any current schema a row without gaps, in which no value is taken for NULL, answers each column with what the first column of its name gives back (a faithful value and NULL as they were), or with its default value, or NULL without one |
| RowCodec.WriteThenRead | byoridb-codec/src/row.rs:504-597 | Such a row written under a registered schema is answered so by name through the provider, for exactly the columns of the current schema, whatever schemas were added since |
| RowCodec.NullShiftsColumns | byoridb-codec/src/row.rs:66-72 | A row in which a NULL before a value makes the reader return another column's value |
| RowCodec.NoFlagsMisread | byoridb-codec/src/row.rs:327-336 | A row of a schema without nullable columns whose value is read as NULL |

## Left out

- The async runtime, RPC transport, redb, files, CSV and gzip: calls are atomic steps on a map or an input sequence; the Bloom filter, transactions, query plans, filters and the expression evaluator are not part of this model, since they would add mostly case-by-case members.
- JSON payloads and cursors: the legacy JSON form of a record is an uninterpreted decoder, a cursor an encoding that can be read back.
- `INT64` spaces and the non-negative legacy branch of `resolve_vid` and `display_vid`: pass-through cases without the protocol.
- Account lockout, sessions, roles and password hashing beyond the limiter.
- sameAs merging, MATCH, DML and the inference engines; of sameAs only the resolution of a representative is modelled.
- Float, Double and Geography columns; Timestamp and FixedString columns are written as in the source and read as NULL, as in the source.
- Traversal metrics other than the count of expanded states.
- WeightedSearch.DijkstraShortestPath: which of several failures is reported first is not stated; the budget equivalence is for data without the others, because the code may meet either before the budget.
- ShortestPath.FindShortestPath: between the necessary and the sufficient condition of a failure lies the last level before the target, which the search leaves at a place that depends on the order of the scan.
- StorePaths.FindShortest: has the same gap between the two conditions.
- LoginThrottle.SourceBudget: holds while the source's failures find room in the table; SourceCountedExactly gives the exact condition for one failure.
- LoginThrottle.AccountBudget: assumes one login at a time and a monotone clock, and is about windows that start when the clock is old enough; WindowNeedsOldClock shows that the last is exactly what is needed.
- LoginThrottle.RetryIsTight: a refusal for want of a slot is outside it, because the wait is then the whole window while a slot may come free earlier; FullTableRefusesExactly says when.
- LoginThrottle.ReportedWaitFallsShort: a refusal for want of a slot is outside it, for the same reason.
- VidMapping.ClaimIsRecovered: assumes that data writes spare the string's candidates; RaceCanConflict shows what happens otherwise.
- BulkLoader.Loader.constructor: a space that already holds data is outside the model; the loader would hand out vids from 1 there too, and its vertices would fall together with those of the same number.
- PagedReads.LookupPartition: an unlimited read of an arbitrary server is assumed to end, since nothing in the code bounds it; HonestStops supplies this for honest servers.
- BulkLoader.Loader.LoadNodeFile: assumes that vids stay below 2^63; the wrap of the vid counter is not modelled.
- BulkLoader.Loader.Finish: assumes fewer than 2^63 keys, so that counters do not overflow; degrees are exact when no edge type contains a separator, and CountedIffSegment says what happens otherwise.
- KeysetServer.ScanVertices: every scanned key parses and every record decodes; in the source a corrupt one fails the request.
- KeysetServer.KeysetIsHonest: the index keys under the prefix are well formed; in the source a malformed one fails the request.
- Ontology.VertexClassSet: the vertex record decodes, and the inferred types are given; in the source they are parsed from keys.
- ProtoScan.DecodeEdgeVidProto: positions are unbounded, so declared lengths near 2^64 that would wrap a 64-bit position are not modelled.
- ProtoScan.ReadVarintLoop: joining the seven-bit groups by OR is modelled as addition, which is the same since the groups occupy different bits.
- RowCodec.ReadValueFromRow: models the reader with bounds checks; the other reader does the same arithmetic and panics where this one reports an error.
- RowCodec.ColumnReadsAs: rows in which a NULL leaves a gap before the column, or for text anywhere, are outside it, for the same reason as ColumnReadsBackIff.
- RowCodec.ColumnReadsBackIff: rows in which a NULL leaves a gap are outside it, because the reader then starts at the wrong byte (ColumnsLineUp); which bytes it happens to find there is not stated.
