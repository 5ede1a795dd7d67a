# File-based routing for the mishards search proxy

mishards sits in front of a group of Milvus read-only servers. A search on
a collection is split up by the `FileBasedHashRingRouter` plugin. It works
in four steps:

1. It finds the collection's table rows in the metadata catalog: the
   collection itself, or its partitions when partition tags are given.
2. It reduces those rows to a list of collection ids and selects the
   searchable segment files of those collections (types RAW, TO_INDEX and
   INDEX).
3. It deals the files out round-robin over the read-only servers.
4. For each server it reports two lists: the ids of the files to search,
   and the ids of the files whose update time is newer than the last time
   that server was sent them. The second list comes from a process-wide
   ledger, `file_updatetime_map`, that maps host to file id to the last
   update time sent.

The project models these four steps and proves what they promise:

- **Catalog selection.** The source builds a SQL condition. The model
  proves that condition is exactly a membership predicate on the row. It
  excludes rows being deleted. Without tags, it selects the collection and
  its partitions. With tags, it selects the partitions, plus the
  collection's own row when `_default` is requested.
- **The collection-id list.** The model proves it without tags and with
  tags: a row contributes at most one id; rows named after the collection
  contribute that name; otherwise a partition contributes its id when any
  tag pattern matches its tag.
- **Round-robin distribution.** Every file goes to exactly one server, so
  the per-host lists join back into the input multiset. Each host's list
  keeps catalog order. Over distinct servers, the list lengths are
  `n / |servers|` plus one for the first `n % |servers|` positions, so any
  two differ by at most one.
- **The change tracker.** A class whose field is the ledger.
  `FilterFileToUpdate` is proved against a scan function over the file
  list. Lemmas show:
  - stored times only grow;
  - unreported files keep their time;
  - the update list is a subsequence of the input;
  - with distinct ids, it is exactly the files newer than the ledger;
  - re-sending the same list reports nothing and changes nothing.
- **The whole call.** `Route` returns `CollectionNotFound` when no row
  matches. Otherwise it returns the per-host results and advances the
  ledger. Lemmas connect that result back to the distribution and to the
  ledger. A worked two-server scenario gives the concrete results of a
  first and a second call.

Modules: `Wrappers` (Result), `Seqs` (filter, subsequence), `Models`
(catalog rows and file entries), `ChangeTracking` (`filter_file_to_update`
and the ledger), `Resolver` (catalog condition, collection list, file
selection), `Distributor` (round-robin), `Router` (`_route` and result
assembly).

## Model

| member | source | states |
|---|---|---|
| ChangeTracking.ChangeTracker.constructor | shards/mishards/router/plugins/file_based_hash_ring_router.py:14 | the ledger starts empty |
| ChangeTracking.ChangeTracker.FilterFileToUpdate | shards/mishards/router/plugins/file_based_hash_ring_router.py:17-33 | returns the ids of the files in the list whose time exceeds the time stored for them (missing means 0), in list order; stores the new time; the host's entry exists afterwards even when nothing was reported; other hosts' ledgers are untouched; no stored time decreases |
| ChangeTracking.ScanSingle | shards/mishards/router/plugins/file_based_hash_ring_router.py:23-31 | one file is reported and stored exactly when its time exceeds the stored time, defaulting to 0 |
| ChangeTracking.ScanFrame | shards/mishards/router/plugins/file_based_hash_ring_router.py:25-29 | stored times never decrease; the ledger afterwards holds exactly the ids it held before plus the reported ones; an id that is not reported keeps its stored value |
| ChangeTracking.ScanUpdatesSubsequence | shards/mishards/router/plugins/file_based_hash_ring_router.py:21-31 | the reported ids are a subsequence of the listed ids, so they keep their order |
| ChangeTracking.ScanDominates | shards/mishards/router/plugins/file_based_hash_ring_router.py:25-29 | after the scan, every listed file's stored time is at least its listed time |
| ChangeTracking.ScanQuiet | shards/mishards/router/plugins/file_based_hash_ring_router.py:25-26 | if no listed time exceeds its stored time, nothing is reported and the ledger is unchanged |
| ChangeTracking.ScanIdempotent | shards/mishards/router/plugins/file_based_hash_ring_router.py:23-29 | scanning the same list again against the advanced ledger reports nothing and leaves the ledger as it is |
| ChangeTracking.ScanDistinct | shards/mishards/router/plugins/file_based_hash_ring_router.py:17-33 | with distinct ids, the reported ids are exactly the files newer than the initial ledger (the reference filter `Fresh`), and each of them ends with its listed time |
| Resolver.ConditionSelectsMembers | shards/mishards/router/plugins/file_based_hash_ring_router.py:51-62 | the and_/or_ condition holds for a row if and only if the row is live and either (no tags) its id or owner is the collection, or (tags) its owner is the collection or `_default` is requested and its id is the collection |
| Resolver.MatchedMembers | shards/mishards/router/plugins/file_based_hash_ring_router.py:63-72 | the query result holds exactly the catalog rows that are members, in catalog order; it is empty if and only if no catalog row is a member, which is the not-found case |
| Resolver.Contribution | shards/mishards/router/plugins/file_based_hash_ring_router.py:75-86 | each row adds at most one id to the collection list |
| Resolver.CollectionIdsUntagged | shards/mishards/router/plugins/file_based_hash_ring_router.py:75-76 | without tags, the collection list is the rows' ids, one per row, in order |
| Resolver.CollectionIdsAtMostOnePerRow | shards/mishards/router/plugins/file_based_hash_ring_router.py:77-86 | the collection list is never longer than the rows |
| Resolver.CollectionIdsTagged | shards/mishards/router/plugins/file_based_hash_ring_router.py:77-86 | with tags, an id is in the list if and only if some row has it as its id and either that id is the collection name or some tag pattern matches the row's partition tag |
| Resolver.CollectionList | shards/mishards/router/plugins/file_based_hash_ring_router.py:74-86 | the loops compute the collection list; the inner loop stops at the first matching tag, so a row is added once |
| Resolver.RoutableFiles | shards/mishards/router/plugins/file_based_hash_ring_router.py:88-95 | a file is selected if and only if it is in the catalog, its type is RAW, TO_INDEX or INDEX, and its collection is in the list; order is kept |
| Resolver.SubsequenceDistinctFiles | shards/mishards/router/plugins/file_based_hash_ring_router.py:93-95 | selecting some file rows in order keeps their ids distinct |
| Resolver.EntriesDistinct | shards/mishards/router/plugins/file_based_hash_ring_router.py:93-124 | when the file rows have distinct ids (their primary key), the (id, update time) pairs of the selected rows have distinct ids too |
| Distributor.TargetHost | shards/mishards/router/plugins/file_based_hash_ring_router.py:116 | the target host of the i-th file is always one of the servers |
| Distributor.Distribute | shards/mishards/router/plugins/file_based_hash_ring_router.py:113-124 | the loop builds the round-robin map: its keys are the servers that received a file, each value is that server's files in order and is never empty, and a server without a key received nothing |
| Distributor.AssignedToNonEmpty | shards/mishards/router/plugins/file_based_hash_ring_router.py:119-124 | a server has a non-empty list if and only if it is the target of some file |
| Distributor.HostsAreLeadingServers | shards/mishards/router/plugins/file_based_hash_ring_router.py:115-116 | the hosts that receive files are exactly the servers at positions below the number of files |
| Distributor.AssignedInOrder | shards/mishards/router/plugins/file_based_hash_ring_router.py:115-124 | each host's list is a subsequence of the files, and it has distinct ids when the files do |
| Distributor.AssignedConservation | shards/mishards/router/plugins/file_based_hash_ring_router.py:113-124 | no file is lost or duplicated: the hosts' lists, joined over distinct names covering the servers, give the multiset of file ids |
| Distributor.AssignedCount | shards/mishards/router/plugins/file_based_hash_ring_router.py:114-118 | over distinct servers, the server at position r gets `n / |servers|` files, plus one if r is below `n % |servers|` |
| Distributor.AssignedBalanced | shards/mishards/router/plugins/file_based_hash_ring_router.py:114-118 | over distinct servers, two servers' file counts differ by at most one, and an earlier position never gets fewer |
| Router.FilterRouting | shards/mishards/router/plugins/file_based_hash_ring_router.py:126-132 | each routed host gets its files' ids to search and the change tracker's report for its files; the ledger advances for exactly those hosts |
| Router.Route | shards/mishards/router/plugins/file_based_hash_ring_router.py:47-132 | no matching row fails with CollectionNotFound and leaves the ledger alone; otherwise the result is the per-host results of the round-robin distribution of the resolved files, and the ledger is advanced by it |
| Router.ResultsShape | shards/mishards/router/plugins/file_based_hash_ring_router.py:113-132 | every result host is a server with a non-empty search list; its update list is a subsequence of its search list; the result is empty exactly when no file was resolved |
| Router.SearchConservation | shards/mishards/router/plugins/file_based_hash_ring_router.py:113-132 | the search lists together hold every resolved file id exactly as often as the resolved list |
| Router.SearchedIsGathered | shards/mishards/router/plugins/file_based_hash_ring_router.py:127-130 | each host's search list is exactly the ids of its distributed files, in order; so the search lists summed over any host names equal the assigned ids summed over them |
| Router.RepeatRouting | shards/mishards/router/plugins/file_based_hash_ring_router.py:17-33 | routing the same files a second time gives the same search lists, empty update lists, and the same ledger |
| Router.LedgerMonotone | shards/mishards/router/plugins/file_based_hash_ring_router.py:126-130 | a call never lowers a stored time, and hosts without files keep their ledger |
| Router.UpdatesAreFresh | shards/mishards/router/plugins/file_based_hash_ring_router.py:126-130 | with distinct file ids, each host's update list is exactly its files newer than its ledger, in order |
| Router.ResolvedUpdatesAreFresh | shards/mishards/router/plugins/file_based_hash_ring_router.py:88-132 | for the files a request actually resolves (file rows with distinct ids), each host's update list is exactly its files newer than its ledger, in order |
| Router.DefaultPartitionShortcut | shards/mishards/router/plugins/file_based_hash_ring_router.py:56-62 | with `_default` among the tags, every searchable file of the live collection itself is routed |
| Router.TwoServerDistribution | shards/mishards/router/plugins/file_based_hash_ring_router.py:113-124 | two files over two distinct servers go one to each, in order |
| Router.TwoServerFirstCall | shards/mishards/router/plugins/file_based_hash_ring_router.py:126-132 | against an empty ledger and with positive times, each server searches and updates its one file |
| Router.TwoServerSecondCall | shards/mishards/router/plugins/file_based_hash_ring_router.py:126-132 | the same routing again searches the same files and updates none |
| Router.TwoServerScenario | shards/mishards/router/plugins/file_based_hash_ring_router.py:113-132 | concrete instance: files "1"@5 and "2"@7 over servers "A" and "B" |

## Left out

- The SQL queries, the session, and `DBError` (lines 63-66, 94-97, 105). The catalog and the file table are given as sequences. The query's row order is taken to be sequence order, although SQL promises no order without ORDER BY.
- `re.match` (line 84) is the parameter `matches`. Python regular-expression semantics are not modelled.
- `Route` requires a non-empty server list whenever some file is resolved. The source would divide by zero at line 116; the model does not model that exception.
- `partition_tags=None` and `[]` are both the empty sequence, since the source only tests whether the tags are falsy.
- `str(f.id)` and `int(f.updated_time)` (line 124) have no model of their own. File ids are strings and update times are integers throughout.
- `FilterRouting` visits hosts in an unspecified order, where Python follows insertion order. The order has no effect, because each host's ledger entry is independent.
- The `FileType` and `TableState` enumerations and the row fields come from `mishards.models`, which is not part of this model. Only the values routing tests are named (`Raw`, `ToIndex`, `Index`, `ToDelete`); every other file type or table state is one catch-all constructor.
- Logging (lines 27, 69, 100, 108, 117) and the `range_array`, `metadata` and `kwargs` pass-through (lines 43-47) have no effect on the result.
- The `routing` entry point (line 43-45) only forwards to `_route`, so it is not modelled separately.
- The `Factory` constructor, `Create` and `setup` (lines 36-41, 134-148) are plugin wiring. The commented-out `HashRing` (lines 9, 111) is unused.
- Thread safety: the source shares `file_updatetime_map` across requests without a lock. The model runs calls one at a time.
