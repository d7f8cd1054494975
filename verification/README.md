# weave-graph: a verified model

weave-graph indexes a repository into a graph of symbols and edges, answers questions about it, groups
files into modules, plans migrations across repositories, and publishes snapshots to a hub. This project
models the parts whose correctness needs an argument, in Dafny, and proves what they promise for every
input, every run or every interleaving.

| module | what it models |
|---|---|
| `Graph`, `Sorting` | walks, reachability, cycles, distance balls, renaming of nodes; ordered lists and binary search |
| `Federation` | Tarjan's strongly connected components with an explicit work stack |
| `Migration` | Kahn's ordering, its refusal message through Tarjan, the graph of repository labels |
| `Policy` | the three-colour search for file dependency cycles and the canonical rotation of what it finds |
| `Cluster` | single-level Louvain clustering in exact integer arithmetic |
| `Csr` | compressed sparse rows: construction, transpose, bounded search, shortest path, id compaction |
| `StorageWalks` | the two caller walks that read storage directly, compared with the compressed index |
| `Resolve` | edit distance with one reused row, and symbol name resolution |
| `Provenance`, `Decimal` | civil dates, and the timestamp as a date-time of section 5.6 of RFC 3339 |
| `Spool` | job file names and the recovery of a queue from a directory |
| `RateLimiter` | the fixed-window limiter over any timeline of requests |
| `Requests` | the PUT handler as a thread that goes through its critical sections one at a time |
| `PushRate`, `PushBurst` | how many pushes the hub accepts in a minute: a bound on every interleaving of handlers, and interleavings that reach it |
| `BlobStore`, `Strings` | committed snapshots, `HEAD`, retention and `pull` |
| `Registry` | one repository of the hub as a machine of critical sections and file operations |
| `RegistryRuns`, `RegistryLatest` | what holds over all its runs |
| `Hub`, `HubServer` | the PUT and HEAD handlers as functions, and the same state updated in place |
| `Upload` | the resumable upload: client, unreliable network and hub together |
| `Reindex` | the targeted update of the node and edge tables |
| `Watch` | the debounce loop and the accumulation of changes until a reindex succeeds |

Results worth singling out, because reading one function does not show them:

- Louvain stops on every input: an accepted move raises modularity, which is bounded.
- A request handled without interruption is one of the interleavings of the registry's critical sections
  (`Hub.PutIsRun`), so what holds of all interleavings holds of the hub.
- After any run of a repository with room and a token, a complete push is accepted exactly if it names no base
  or the target accepted last (`Hub.CompareAndAdvance`). A push that is welcome succeeds in every exchange with
  the hub that loses nothing (`Upload.PushSucceeds`).
- Nine promises do not hold as first written, and each has an exact condition.
  - The rotated form of a recorded cycle is a closed walk only if its smallest file was already first; on
    three files `find_cycles` reports a list that is not one.
  - The per-minute limit does not cap the pushes accepted in a rolling minute. It caps the tokens at twice its
    value, and a push may be accepted long after its token was taken: on a reservation, or by a handler that
    was held up. The least cap on accepted pushes over all interleavings is `PushRate.Most`. With uploads of
    several chunks it is the reservations that can be open at once, plus the connections, plus twice the
    limit, less one, so it grows with the connections.
  - `pending` equals the jobs in and around the queue only if every rename finds its file; two uploads of one
    commit that finish together break it for good.
  - The last accepted snapshot is the last committed only if its job was not lost and nothing was queued after
    the listing that took it up. It is then "latest" exactly if that push keeps at least one snapshot.
  - A client is told "accepted" only for a queued push, unless the whole payload already lies in the partial
    upload of a push that was never queued; the offset query alone then ends the push.
  - Every job queued for a commit is its payload only if no shorter leftover of another payload lies in the
    partial upload; the chunk that fits behind it is queued with it.
  - Suggestions for an unknown symbol stay within five only if at most five short names match.
  - The timestamp is an RFC 3339 date-time only up to the year 9999.
  - Tarjan's groups cover exactly the given ids only if no edge leaves them.

Two comments in the source say more than the code does, and the model follows the code:
`max_pushes_per_minute_per_repo` is described as a rolling window, and `incremental_reindex` as resolving
every file again, where it resolves the affected ones.

Sorting, hashing and directory listing are modelled by what they yield. Iteration over a hash map or set
takes an arbitrary element each time, so results hold for every order. The ordered maps and sets of the
file cycle search are iterated in ascending order, as the source does.

## Model

| member | source | states |
|---|---|---|
| `Federation.TarjanScc` | crates/weave-graph-core/src/federation.rs:20-40 | for any ids and edges it terminates with disjoint, non-empty groups; a node is in a group exactly when some given id reaches it, and two share one exactly when each reaches the other |
| `Federation.CoversOnlyTheIds` | crates/weave-graph-core/src/federation.rs:16-19 | the groups cover exactly the given ids if and only if no edge leaves them |
| `Federation.TarjanState.StrongConnect` | crates/weave-graph-core/src/federation.rs:52-105 | from a search with nothing active, ends with nothing active, the start indexed, and only complete components closed |
| `Federation.TarjanState.Enter` | crates/weave-graph-core/src/federation.rs:56-63 | the first visit keeps the concrete maps and stack in step with the search |
| `Federation.TarjanState.Scan` | crates/weave-graph-core/src/federation.rs:65-79 | accounts for successors in order up to the first unvisited one, or all of them |
| `Federation.TarjanState.Finish` | crates/weave-graph-core/src/federation.rs:85-103 | the parent takes over the low link, and the node's component is closed exactly when it is a root |
| `Federation.TarjanState.PopComponent` | crates/weave-graph-core/src/federation.rs:94-102 | takes off exactly the stack nodes no older than the root |
| `Federation.VisitKeeps` | crates/weave-graph-core/src/federation.rs:56-63 | visiting a node keeps the search invariant: stack reachability, anchors, and low links attained and bounded |
| `Federation.AccountKeeps` | crates/weave-graph-core/src/federation.rs:74-78 | accounting for an edge keeps it |
| `Federation.LeaveKeeps` | crates/weave-graph-core/src/federation.rs:85-89 | handing the low link to the parent keeps it |
| `Federation.CloseKeeps` | crates/weave-graph-core/src/federation.rs:93-103 | closing a component keeps it |
| `Federation.ClosingIsComponent` | crates/weave-graph-core/src/federation.rs:91-103 | when low link equals index, the nodes above on the stack are exactly the strongly connected component of each of them |
| `Federation.GroupsAreMutual` | crates/weave-graph-core/src/federation.rs:16-19 | sharing a group is mutual reachability |
| `Federation.BuildAdjacency` | crates/weave-graph-core/src/federation.rs:21-24 | successor lists hold exactly the edges |
| `Migration.Kahn` | crates/weave-graph-cli/src/migration.rs:154-175 | a permutation of all nodes in which every edge points forward, or none, and none exactly when the graph has a cycle |
| `Migration.CountEdges` | crates/weave-graph-cli/src/migration.rs:155-160 | indegrees count the dependents lists, which hold exactly the edges |
| `Migration.Release` | crates/weave-graph-cli/src/migration.rs:167-172 | releasing a node lowers the indegree of its dependents and readies those that reach zero |
| `Migration.ReleaseKeeps` | crates/weave-graph-cli/src/migration.rs:167-172 | one release keeps the order settled and each ordered node after its predecessors |
| `Migration.StuckIsCyclic` | crates/weave-graph-cli/src/migration.rs:174-174 | an order that stops short leaves a cycle among the nodes left over |
| `Migration.OrderedIsAcyclic` | crates/weave-graph-cli/src/migration.rs:154-175 | a full forward order excludes every cycle |
| `Migration.CyclicGroups` | crates/weave-graph-cli/src/migration.rs:212-219 | the groups listed are mutually reachable sets of more than one node, and every mutually reachable pair is in one |
| `Migration.CyclicHasPair` | crates/weave-graph-cli/src/migration.rs:130-141 | without self-loops a graph is cyclic exactly when two different nodes reach each other |
| `Migration.NumberRefs` | crates/weave-graph-cli/src/migration.rs:120-141 | the numbered edges mirror the references between known labels |
| `Migration.PlanOrder` | crates/weave-graph-cli/src/migration.rs:120-175 | an order of all repositories in which every reference runs forward, or a refusal, given exactly when the label graph has a cycle; it names only knots, and one with any two repositories that depend on each other, so at least one unless every cycle is a reference of a repository to itself |
| `Migration.CycleLabels` | crates/weave-graph-cli/src/migration.rs:212-235 | the knots of the refusal by label: each is mutually reachable, and every mutually reachable pair is in one |
| `Policy.FindCycles` | crates/weave-graph-core/src/policy.rs:155-177 | no entry exactly when the cross-file dependency graph is acyclic; each entry is the rotation of a recorded simple cycle along it, recorded ones ascend, no two are rotations of each other, and they are what the search in ascending order finds; every cycle runs through the closing edge of a recorded one |
| `Policy.CycleFinder.Dfs` | crates/weave-graph-core/src/policy.rs:183-212 | updates colours, stack and findings in place as the recursive specification `Visit` says, which the next rows are about; terminates |
| `Policy.VisitSound` | crates/weave-graph-core/src/policy.rs:183-212 | a visit restores the stack, finishes the file or records the edge to it as a back edge, records only simple cycles, and but for back edges what is finished is closed and on no cycle |
| `Policy.RecordedAreRings` | crates/weave-graph-core/src/policy.rs:155-177 | what is recorded are simple cycles, none exactly when the graph is acyclic, and each ring once; without their closing edges the graph is acyclic |
| `Policy.RingsDiffer` | crates/weave-graph-core/src/policy.rs:155-158 | two recorded cycles that are rotations of each other are equal, since each contains one back edge and each back edge is met once |
| `Policy.BackEdgeCycle` | crates/weave-graph-core/src/policy.rs:190-201 | an edge to a file on the stack closes a simple cycle along the stack |
| `Policy.FinishKeepsClean` | crates/weave-graph-core/src/policy.rs:205-211 | a file whose successors are finished and on no cycle is on none |
| `Policy.BuildFileGraph` | crates/weave-graph-core/src/policy.rs:160-168 | ascending successor lists that hold exactly the dependencies between different files |
| `Policy.FileOfIsLast` | crates/weave-graph-core/src/policy.rs:160-168 | the file of a node id is that of the last node that has it |
| `Policy.OrderedIsUnique` | crates/weave-graph-core/src/policy.rs:160-168 | the ascending lists are determined by the dependencies alone |
| `Policy.RotationClosedIff` | crates/weave-graph-core/src/policy.rs:214-224 | the rotation of a recorded cycle is a closed walk exactly when its smallest file was already first |
| `Policy.RotationKeepsFiles` | crates/weave-graph-core/src/policy.rs:214-224 | the rotation keeps the files and their number of occurrences |
| `Policy.RotationStartsSmallest` | crates/weave-graph-core/src/policy.rs:214-224 | the rotation starts with a file that comes before every other one, and goes around from there |
| `Policy.ListLessIsFirstDifference` | crates/weave-graph-core/src/policy.rs:155-177 | the order of recorded cycles is that of their files: the first difference decides, a proper prefix comes first |
| `Policy.ExampleRecorded` | crates/weave-graph-core/src/policy.rs:173-175 | on those files the search records the ring from its larger file |
| `Policy.ReportExample` | crates/weave-graph-core/src/policy.rs:159-224 | on three files the report is one list that is no closed walk |
| `Policy.Report` | crates/weave-graph-core/src/policy.rs:171-176 | the recorded cycles in ascending order, each rotated |
| `Cluster.LouvainCommunities` | crates/weave-graph-core/src/cluster.rs:17-64 | terminates on every input; every node is assigned; ids are contiguous and given out in the order of the nodes; modularity is at least that of the singletons; no node gains by moving to a neighbour's community; where all edges join listed nodes the network measured is the whole graph |
| `Cluster.MoveChangesModularity` | crates/weave-graph-core/src/cluster.rs:86-136 | moving a node changes modularity by twice the difference of its pull to the two communities |
| `Cluster.GainIsPull` | crates/weave-graph-core/src/cluster.rs:97-114 | the gain computed from neighbour weights and community degrees is that pull |
| `Cluster.Clustering.MoveToBest` | crates/weave-graph-core/src/cluster.rs:86-136 | a move raises modularity strictly and keeps the community degrees; no move means the node is settled |
| `Cluster.Clustering.Best` | crates/weave-graph-core/src/cluster.rs:116-127 | the current community, or a strictly better one, with a gain at least that of every neighbouring community |
| `Cluster.MoveKeepsTracked` | crates/weave-graph-core/src/cluster.rs:108-131 | after a move each community degree is still the summed degree of its members |
| `Cluster.BondSumCapped` | crates/weave-graph-core/src/cluster.rs:42-61 | modularity is bounded above, whatever the assignment |
| `Cluster.Pass` | crates/weave-graph-core/src/cluster.rs:48-60 | a pass over all nodes raises modularity, or changes nothing and leaves every node settled |
| `Cluster.Improve` | crates/weave-graph-core/src/cluster.rs:42-61 | passes end with every node settled and modularity no lower |
| `Cluster.UndirectedAdjacency` | crates/weave-graph-core/src/cluster.rs:66-82 | every node's list holds each neighbour once with the summed weight of the pair, self-edges and non-positive weights dropped |
| `Cluster.NodeDegrees` | crates/weave-graph-core/src/cluster.rs:31-40 | each degree is the node's total weight |
| `Cluster.TotalWeight` | crates/weave-graph-core/src/cluster.rs:25-27 | the sum of all lists is twice the total weight |
| `Cluster.DegreesComplete` | crates/weave-graph-core/src/cluster.rs:25-40 | when every edge joins listed nodes, degrees and total weight miss nothing |
| `Cluster.Renumber` | crates/weave-graph-core/src/cluster.rs:141-155 | the same partition under contiguous ids, in the order in which communities first appear: each node has the number of one before it or one above all of those |
| `Csr.FromSortedEdges` | crates/weave-graph-core/src/csr.rs:41-69 | valid offsets whose rows are, in order, the targets of each source |
| `Csr.BuildReverse` | crates/weave-graph-core/src/csr.rs:88-118 | the exact transpose with rows in order |
| `Csr.TransposeEdges` | crates/weave-graph-core/src/csr.rs:88-118 | a transpose has exactly the reversed edges |
| `Csr.TransposeTwice` | crates/weave-graph-core/src/csr.rs:88-118 | transposing twice gives the structure back exactly when its rows are in order |
| `Csr.BfsWithin` | crates/weave-graph-core/src/csr.rs:126-146 | the set of nodes at distance at most the bound, early break included |
| `Csr.FromNodesAndEdges` | crates/weave-graph-core/src/csr.rs:188-211 | the compact index mirrors the edges between known ids, with the ids ascending and rows in order |
| `Sorting.BinarySearch` | crates/weave-graph-core/src/csr.rs:239-240 | in an ascending list an element is found at a place that holds it, and not found exactly when absent |
| `Csr.ReachableWithin` | crates/weave-graph-core/src/csr.rs:283-289 | the ids at distance at most the bound along edges between known ids; nothing for an unknown id |
| `Csr.CallersWithin` | crates/weave-graph-core/src/csr.rs:295-302 | the ids from which the node is within the bound, walking forward |
| `Csr.QueryPath` | crates/weave-graph-core/src/csr.rs:238-276 | a walk along real edges that is shortest among all, and none exactly when an id is unknown or the target unreachable |
| `Csr.ShortestPath` | crates/weave-graph-core/src/csr.rs:238-276 | the same on compact indices |
| `Csr.FoundIsShortest` | crates/weave-graph-core/src/csr.rs:238-276 | a path traced through the predecessors is shortest |
| `StorageWalks.InboundWithin` | crates/weave-graph-cli/src/export.rs:134-152 | the nodes that reach the given one within the bound in the stored edges |
| `StorageWalks.CallersText` | crates/weave-graph-cli/src/query.rs:345-381 | names each transitive caller other than the root exactly once |
| `StorageWalks.BoundedWalksAgree` | crates/weave-graph-cli/src/export.rs:134-152 | the storage walk and the indexed one name the same callers at every depth exactly when every node that leads to the root has a row |
| `StorageWalks.StoredCallersAreIndexed` | crates/weave-graph-cli/src/query.rs:345-381 | callers found through stored rows are those found in the index, dangling edges or not |
| `StorageWalks.TransitiveWalkAgrees` | crates/weave-graph-cli/src/query.rs:345-381 | for every bound of at least the number of nodes the transitive walk names what the index finds, less the root |
| `StorageWalks.CallersAgree` | crates/weave-graph-cli/src/query.rs:345-381 | with no dangling edge the indexed search, the hop-bounded walk and, for a bound of at least the node count and less the root, the transitive walk name the same callers |
| `Resolve.Levenshtein` | crates/weave-graph-core/src/resolve.rs:40-56 | the least number of single-byte inserts, deletes and substitutions that turn one string into the other |
| `Resolve.FillRow` | crates/weave-graph-core/src/resolve.rs:45-54 | one row of distances from the row before it, with the match shortcut |
| `Resolve.MatchTakesDiagonal` | crates/weave-graph-core/src/resolve.rs:48-50 | on equal last bytes the diagonal is the minimum |
| `Resolve.DistanceIsEditDistance` | crates/weave-graph-core/src/resolve.rs:40-56 | the recurrence is attained by some edits and beaten by none |
| `Resolve.ResolveSymbol` | crates/weave-graph-core/src/resolve.rs:58-96 | the node is the first, by its place in the list, whose symbol is the name; failing that the first that is the name up to the case of ASCII letters; failing that the only one whose short name it is. Several short-name matches are all suggested in the order of the list; without any, the closest five names of a ranking of all nodes. Suggestions stay within the promised five exactly when at most five short names match |
| `Resolve.LowerFoldsCase` | crates/weave-graph-core/src/resolve.rs:16-22 | two lower-cased names are equal exactly when the names agree letter by letter up to ASCII case |
| `Resolve.ShortNameIsCalled` | crates/weave-graph-core/src/resolve.rs:28-34 | a short-name match is the name itself, or any qualifier, a double colon and the name |
| `Resolve.ResolveExample` | crates/weave-graph-core/src/resolve.rs:58-82 | six symbols with the short name asked for are all suggested |
| `Resolve.Rank` | crates/weave-graph-core/src/resolve.rs:84-94 | all nodes with their distances, in rank order |
| `Resolve.SuggestionsAreClosest` | crates/weave-graph-core/src/resolve.rs:84-95 | suggestions come in the order of their distance, equal ones in the order of their bytes, and no node left out comes before one suggested |
| `Provenance.CivilFollowsCalendar` | crates/weave-graph-cli/src/provenance.rs:78-90 | day 0 is 1970-01-01 and each day is the Gregorian successor of the one before, in both directions of time |
| `Provenance.CivilRoundTrip` | crates/weave-graph-cli/src/provenance.rs:78-90 | every valid date is the date of its day number |
| `Provenance.CivilIsDayNumber` | crates/weave-graph-cli/src/provenance.rs:78-90 | every day gives a valid date, and counting days up to that date gives the day back, so the map is injective |
| `Provenance.YearOfEraIsYear` | crates/weave-graph-cli/src/provenance.rs:82-83 | the year-of-era formula names the year that contains the day |
| `Provenance.NextIsOneLater` | crates/weave-graph-cli/src/provenance.rs:78-90 | the calendar successor has the next day number, under the leap-year rule of Appendix C of RFC 3339 |
| `Provenance.FormatIsDateTime` | crates/weave-graph-cli/src/provenance.rs:59-73 | the text is a date-time of section 5.6 of RFC 3339 exactly for instants before the year 10000, then with its separators where that form has them, and any reading of its fields gives the instant back |
| `Spool.FilenameRoundTrip` | crates/weave-graph-hub/src/registry.rs:727-742 | parsing a job's file name gives back number, sha and retention, underscores in the sha included |
| `Spool.NamesOfJobs` | crates/weave-graph-hub/src/registry.rs:731-742 | a file name is that of a job exactly if it is an unsigned 64-bit number up to the first underscore, a retention after the last, the sha between and the suffix of snapshots |
| `Spool.FilenameForm` | crates/weave-graph-hub/src/registry.rs:727-729 | the name is the number in twenty digits, the sha and the retention between underscores, with the suffix |
| `Decimal.ParseReads` | crates/weave-graph-hub/src/registry.rs:731-742 | what parses as a number: at least one digit, with at most a plus sign in front, of a value below the limit |
| `Spool.FilenamesDiffer` | crates/weave-graph-hub/src/registry.rs:727-729 | different jobs have different file names |
| `Spool.SidecarsAreNotJobs` | crates/weave-graph-hub/src/registry.rs:744-765 | partial uploads and signatures are never taken for jobs |
| `Spool.LeftoverJobs` | crates/weave-graph-hub/src/registry.rs:744-767 | the jobs that the file names denote, in sequence order |
| `Spool.RegistryDirectoryHolds` | crates/weave-graph-hub/src/registry.rs:561-571 | what the registry writes to a spool directory is recovered as its jobs and nothing else |
| `Spool.Recover` | crates/weave-graph-hub/src/registry.rs:205-219 | the same jobs in strict order, the next number above all of them and one past the last, the pending count theirs |
| `RateLimiter.Limiter.TryTake` | crates/weave-graph-hub/src/registry.rs:298-312 | a token is granted exactly when the window is a minute old and any are allowed, or has one left; the new window is that of one request, which counts at the second reading of the clock when it starts a new window |
| `RateLimiter.TakeGives` | crates/weave-graph-hub/src/registry.rs:298-312 | a request gets a token exactly when there is one; a window a minute old starts again from that moment, and only granted requests are counted |
| `RateLimiter.RunIsLimited` | crates/weave-graph-hub/src/registry.rs:298-312 | in any run the window counts the grants since it began, at most the limit, and the minute before it saw at most the limit |
| `RateLimiter.AtMostTwice` | crates/weave-graph-hub/src/registry.rs:298-312 | at most the limit of tokens per window, twice the limit in any half-open minute, and one limit more than their number in any stretch of whole minutes |
| `RateLimiter.RollingCap` | crates/weave-graph-hub/src/registry.rs:298-312 | a number caps the tokens of every rolling minute of every run if and only if it is at least twice the limit |
| `Requests.AloneIsPut` | crates/weave-graph-hub/src/server.rs:633-767 | left alone, the sections of a handler do to the repository what the whole request does |
| `Requests.SectionIsRun` | crates/weave-graph-hub/src/registry.rs:262-574 | each section of a handler is a run of the registry's steps |
| `PushRate.SectionPays` | crates/weave-graph-hub/src/registry.rs:262-574 | a section accepts a push only on a token its handler holds or a reservation it has taken up, and either stands for a token |
| `PushRate.StretchPays` | crates/weave-graph-hub/src/registry.rs:262-574 | over any stretch of any interleaving the pushes accepted are at most the reservations open and the tokens and reservations held by handlers at its start, plus the tokens granted in it, less what is open at its end |
| `PushRate.RoomSuffices` | crates/weave-graph-hub/src/registry.rs:360-381 | no more reservations are open at any moment than the queue depth, and than the tokens of a quarter of an hour and twice the connections allow |
| `PushRate.AcceptedAtMost` | crates/weave-graph-hub/src/registry.rs:66-70 | in any half-open minute of any interleaving of up to that many handlers, under a clock that never goes back, no more than `Most` pushes are accepted |
| `PushBurst.AcceptedCap` | crates/weave-graph-hub/src/registry.rs:66-70 | a number caps the pushes accepted in every rolling minute of every interleaving if and only if it is at least `Most` |
| `PushBurst.ThreePushes` | crates/weave-graph-hub/src/registry.rs:66-70 | with one push a minute allowed and room for one, three handlers that got their tokens in different minutes are accepted within one |
| `PushBurst.PutHappens` | crates/weave-graph-hub/src/server.rs:109-145 | a request handled without interruption is one of the interleavings |
| `BlobStore.RepoStore.Prune` | crates/weave-graph-hub/src/registry.rs:881-905 | keeps as many blobs as allowed, each removed one older than each kept one by time and then name |
| `BlobStore.OldestGo` | crates/weave-graph-hub/src/registry.rs:881-905 | what is removed is older than what is kept, or as old with a file name that comes before |
| `BlobStore.RepoStore.Commit` | crates/weave-graph-hub/src/registry.rs:843-876 | the blob replaces its commit's, `HEAD` names it, and the store is pruned to the job's retention |
| `BlobStore.NewestSurvives` | crates/weave-graph-hub/src/registry.rs:881-905 | the newest blob survives exactly when the retention is at least one |
| `BlobStore.LatestAfterCommit` | crates/weave-graph-hub/src/registry.rs:578-601 | after a commit later than every blob, "latest" is its content, or nothing if its retention is zero |
| `BlobStore.PullByName` | crates/weave-graph-hub/src/registry.rs:578-601 | a commit pulled by name is found exactly when the name is safe and a snapshot of it is stored, with its content |
| `BlobStore.NamedAfterCommit` | crates/weave-graph-hub/src/registry.rs:578-601 | after a commit a snapshot pulled by name is the new content for that commit and unchanged for any other, or gone, and then as many that are not older are kept as were asked for |
| `BlobStore.SafeHead` | crates/weave-graph-hub/src/registry.rs:193-198 | a safe sha written to `HEAD` is read back unchanged |
| `BlobStore.HeadIsTrimmed` | crates/weave-graph-hub/src/registry.rs:193-198 | the persisted head is the text of the file between white space, if there is any |
| `BlobStore.SafeNames` | crates/weave-graph-hub/src/registry.rs:34-41 | a safe name has at most 128 characters, is neither of the dot names and holds no separator; names of hexadecimal digits are safe |
| `Registry.CheckTells` | crates/weave-graph-hub/src/registry.rs:278-297 | with no reservation of its own and with room, the first check is a conflict exactly when the push builds on one commit and the head is another; without room it is limited; else it goes on |
| `Registry.ReserveTells` | crates/weave-graph-hub/src/registry.rs:314-330 | with room the reservation is a conflict exactly in that case and else made with the time of the request; without room it is limited |
| `Registry.AcceptTells` | crates/weave-graph-hub/src/registry.rs:538-559 | with room in the queue the push is a conflict exactly in that case; else it is accepted, becomes the head, takes the next number and counts as pending |
| `RegistryRuns.PendingIsConserved` | crates/weave-graph-hub/src/registry.rs:314-330 | in every interleaving `pending` is the queued jobs plus those being renamed, being counted down and lost; it stays within the depth; reservations too; numbers are consecutive, distinct and below the next |
| `RegistryRuns.PendingIsExact` | crates/weave-graph-hub/src/registry.rs:538-573 | `pending` is the jobs in and around the queue if and only if every rename of the run found its file |
| `RegistryRuns.LostExample` | crates/weave-graph-hub/src/registry.rs:561-573 | two uploads of one commit finishing together leave a job counted that is not queued |
| `RegistryRuns.CountedKeeps` | crates/weave-graph-hub/src/registry.rs:796-806 | every step of the registry keeps the count |
| `RegistryRuns.BatchedKeeps` | crates/weave-graph-hub/src/registry.rs:784-806 | what the worker listed stays queued until it removes it, so each commit finds its file |
| `RegistryRuns.BaseIsPreviousTarget` | crates/weave-graph-hub/src/registry.rs:548-557 | every accepted push that names a base named the target accepted before it, the first one the persisted head |
| `RegistryLatest.LatestIsLastCommitted` | crates/weave-graph-hub/src/registry.rs:843-876 | at any point of any run "latest" is what the worker committed last, unless that kept nothing |
| `RegistryLatest.LastCommittedIff` | crates/weave-graph-hub/src/registry.rs:776-813 | in every run that drains, the last commit is the last accepted job if and only if that job was not lost and nothing was queued after the listing that took it up |
| `RegistryLatest.LatestIsLastAccepted` | crates/weave-graph-hub/src/registry.rs:538-574 | under that schedule the persisted head is the compared head, and "latest" is the last accepted payload exactly when its retention is at least one |
| `RegistryLatest.InOrderIsTakenUpLast` | crates/weave-graph-hub/src/registry.rs:538-574 | queueing in the order of acceptance is such a schedule, unless the last job is lost |
| `RegistryLatest.StaleExample` | crates/weave-graph-hub/src/registry.rs:776-813 | a drained run that loses nothing and leaves the persisted head behind the accepted one |
| `RegistryLatest.ProcessedKeeps` | crates/weave-graph-hub/src/registry.rs:784-806 | with jobs queued in order the worker commits in order |
| `Hub.PutAnswers` | crates/weave-graph-hub/src/server.rs:633-767 | when a PUT is answered 202, 400, 409, 429, 500 or not at all, from the range, the name, the stored part, live reservations, room, token and heads, each both ways; and the whole new state that each answer stands for |
| `Hub.AnswersHaveCodes` | crates/weave-graph-hub/src/server.rs:670-767 | accepted is 202, a conflict 409, a limit 429 and an error 500, and no code stands for two of them |
| `Hub.BeginAnswers` | crates/weave-graph-hub/src/registry.rs:262-331 | when `begin_upload` fails, limits, conflicts or accepts, each both ways, and what is then reserved, stored and counted |
| `Hub.CompleteAnswers` | crates/weave-graph-hub/src/registry.rs:465-574 | when `push_complete` limits, conflicts or accepts, each both ways; an accepted push is queued with its content and becomes the head; in every case nothing of the upload is left |
| `Hub.CompareAndAdvance` | crates/weave-graph-hub/src/registry.rs:538-559 | after any run, with room and a token, a push of a whole payload that names no base or the last accepted target is answered 202, queued and becomes the head; one that names any other base is answered 409 and changes nothing of that |
| `Hub.HeadAnswers` | crates/weave-graph-hub/src/server.rs:604-613 | the offset query answers 200 with the length of the partial upload exactly when there is one that is not empty, and 404 otherwise |
| `Hub.PutIsRun` | crates/weave-graph-hub/src/server.rs:633-767 | a PUT is a run of the registry's steps |
| `Hub.BeginIsRun` | crates/weave-graph-hub/src/registry.rs:262-331 | so is `begin_upload`, expiry included |
| `Hub.CompleteIsRun` | crates/weave-graph-hub/src/registry.rs:465-574 | so is `push_complete`, refused or accepted |
| `HubServer.RepoState.constructor` | crates/weave-graph-hub/src/registry.rs:205-252 | opening on a spool directory gives a state in which the count, the next number and the head agree with the disk |
| `HubServer.RepoState.ExpireUploads` | crates/weave-graph-hub/src/registry.rs:360-381 | drops the reservations and files of uploads at least fifteen minutes old, and no others |
| `HubServer.RepoState.BeginUpload` | crates/weave-graph-hub/src/registry.rs:262-331 | fails for an unsafe name; is accepted with a live reservation or with room, a token and no other head; is a conflict or limited in the other cases, each exactly; and the state is that of the run of its sections |
| `HubServer.RepoState.Reserve` | crates/weave-graph-hub/src/registry.rs:314-330 | decides again under the lock: limited without room, a conflict exactly when the push builds on one commit and the head is another, else reserved as of now |
| `HubServer.RepoState.AbandonUpload` | crates/weave-graph-hub/src/registry.rs:334-349 | releases the reservation and deletes the file |
| `HubServer.RepoState.SpoolChunk` | crates/weave-graph-hub/src/registry.rs:393-439 | takes the chunk exactly when the name is safe, the size allowed, and it starts at zero or where the file ends; then the file is started over or extended, and nothing is changed otherwise |
| `HubServer.RepoState.Decide` | crates/weave-graph-hub/src/registry.rs:538-559 | limited without room, a conflict exactly when the push builds on one commit and the head is another; else it takes the next number, becomes the head and counts as pending |
| `HubServer.RepoState.Enqueue` | crates/weave-graph-hub/src/registry.rs:561-573 | the upload becomes the queued job, or the job is lost if the file is gone |
| `HubServer.RepoState.FinishUpload` | crates/weave-graph-hub/src/registry.rs:483-574 | the state and answer of finishing, with or without a reservation |
| `HubServer.RepoState.PushComplete` | crates/weave-graph-hub/src/registry.rs:465-481 | anything but acceptance abandons the upload |
| `HubServer.RepoState.Put` | crates/weave-graph-hub/src/server.rs:633-767 | one PUT is a run of the registry's steps, with the answer and the new state that `Hub.PutAnswers` tells, status codes written out; sent as a part of any payload whose prefix is stored it leaves a prefix, queues only that payload, and answers 202 to the last chunk only if it was queued |
| `HubServer.RepoState.FinishJob` | crates/weave-graph-hub/src/registry.rs:796-806 | commit at the given time, remove and count down are steps of the registry |
| `HubServer.RepoState.WorkerRound` | crates/weave-graph-hub/src/registry.rs:784-812 | a round is a run of the registry that empties the spool, commits every job in sequence order with its content, retention and the time of its commit, and counts each down |
| `Upload.PushChunks` | crates/weave-graph-hub/src/client.rs:208-300 | told where to begin, the client goes on by five megabytes with each 202 and is accepted with the one that reaches the end; the first other answer ends it with the outcome of its code; and for any replies and transport errors it is in the state that the next rows are about |
| `Upload.AckedMoves` | crates/weave-graph-hub/src/client.rs:242-270 | from wherever it sends, each 202 moves the client on by one chunk of five megabytes, at most to the end, and it is accepted there and not before; errors are counted anew |
| `Upload.RefusalEnds` | crates/weave-graph-hub/src/client.rs:262-279 | any other answer to a chunk ends the push: 200, 201 and 204 as published, 409 as a conflict, 429 as limited, the rest as an error |
| `Upload.QueryMoves` | crates/weave-graph-hub/src/client.rs:232-240 | an offset query moves the client to what it reports, or leaves it where it was |
| `Upload.FourthErrorEnds` | crates/weave-graph-hub/src/client.rs:280-298 | three transport errors in a row are tried again after an offset query each; the fourth ends the push |
| `Upload.PushSucceeds` | crates/weave-graph-hub/src/client.rs:208-300 | a push that is welcome, in every run with the hub that loses nothing: it ends accepted with the payload queued and the push the head, after as many exchanges as the hub misses chunks |
| `Upload.PushRuns` | crates/weave-graph-hub/src/client.rs:208-300 | there is such a run |
| `Upload.ChunkExtends` | crates/weave-graph-hub/src/registry.rs:393-439 | a chunk of the payload that is taken leaves the prefix that ends where it ends |
| `Upload.CompleteQueues` | crates/weave-graph-hub/src/registry.rs:465-574 | completing an upload queues exactly its content or drops it, and loses nothing |
| `Upload.PutServes` | crates/weave-graph-hub/src/server.rs:633-767 | any chunk request leaves a prefix, completes no payload without queueing or dropping it, queues only the payload, and answers 202 to the last chunk only if it queued it |
| `Upload.UploadIsExact` | crates/weave-graph-hub/src/client.rs:208-300 | under any loss, delay, duplication and reordering, with other threads and senders: the partial file is a prefix and every job queued for the commit is the payload |
| `Upload.ExactIff` | crates/weave-graph-hub/src/client.rs:208-300 | on a hub that takes pushes and has room, every run queues exactly the payload if and only if it was so before and no chunk fits onto a leftover of something else |
| `Upload.MixedUpload` | crates/weave-graph-hub/src/registry.rs:393-439 | from a shorter leftover of another payload a run queues both joined |
| `Upload.AcceptedMeansQueued` | crates/weave-graph-hub/src/client.rs:208-300 | in every such run "accepted" is reported only if the payload was queued, if and only if the push does not start with the whole payload already stored and never queued |
| `Upload.TrapExample` | crates/weave-graph-hub/src/client.rs:232-245 | a registry opened on such a leftover: the push is reported accepted after the offset query, with nothing queued |
| `Reindex.Storage.IncrementalReindex` | crates/weave-graph-cli/src/index.rs:732-865 | afterwards every edge joins two stored nodes and the node table is current. Of the old edges exactly those between unchanged files stay. The present files that are changed, have an edge into a changed one, or left a name unresolved whose short name a changed file had or has, and only those, have been resolved again against the new table, their references replaced |
| `Reindex.ChangedIsExact` | crates/weave-graph-cli/src/index.rs:764-865 | the edges leaving a changed file are exactly what the resolver yields for it against the new table, and its unresolved references what the resolver leaves |
| `Reindex.DeletedIsGone` | crates/weave-graph-cli/src/index.rs:817-845 | a deleted file leaves no node, no edge and no reference |
| `Reindex.OthersKeepTheirEdges` | crates/weave-graph-cli/src/index.rs:764-865 | edges between unchanged files stay, and a file with an edge into a changed one is resolved again if it is still there |
| `Reindex.UnresolvedAreRevisited` | crates/weave-graph-cli/src/index.rs:764-807 | a file with an unresolved reference is resolved again when a changed file had or has a symbol of that short name |
| `Reindex.OthersAreLeftAlone` | crates/weave-graph-cli/src/index.rs:764-865 | any other file keeps its edges and references as they are |
| `Reindex.AffectedMayChange` | crates/weave-graph-cli/src/index.rs:764-807 | the files collected are exactly the changed ones, those with an edge into one, and those with an unresolved reference that an old or new short name of one answers |
| `Reindex.ShortNameIsLast` | crates/weave-graph-store-sqlite/src/backend.rs:183-209 | a short name is what follows the last double colon, or all of the name |
| `Reindex.RowsAreCurrent` | crates/weave-graph-cli/src/index.rs:817-845 | the rows of a changed file are its symbols as parsed, each of its symbols has one of its name and kind, and rows of other files are as they were |
| `Reindex.PurgeKeepsJoined` | crates/weave-graph-core/src/storage.rs:95-102 | once both directions of a file's edges are purged its stale nodes can go |
| `Reindex.PurgedIsCurrent` | crates/weave-graph-cli/src/index.rs:825-845 | a changed file ends with a row for each of its symbols, as parsed, and no other; other files keep their rows |
| `Reindex.ResolvedHolds` | crates/weave-graph-cli/src/index.rs:348-398 | an edge is stored exactly when some link whose two ends are in the table stands for it, with what the last such link says |
| `Reindex.ResolvedJoins` | crates/weave-graph-cli/src/index.rs:348-398 | stored links leave the parsed file and end at stored nodes |
| `Reindex.BuildIndex` | crates/weave-graph-cli/src/index.rs:86-104 | every moniker of the table is found, at a node that carries it |
| `Reindex.Storage.UpsertNode` | crates/weave-graph-store-sqlite/src/backend.rs:310-390 | a symbol keeps the id of a row of its path, name and kind with its signature, or failing that its line, and is new exactly when there is none; the row becomes the symbol |
| `Reindex.Storage.PurgeFileEdges` | crates/weave-graph-store-sqlite/src/backend.rs:1111-1124 | all rows of the file can then go: of a table whose edges join stored rows, exactly the edges that join rows of other files are left |
| `Reindex.Storage.PurgeFileNodesExcept` | crates/weave-graph-store-sqlite/src/backend.rs:420-456 | removes the file's rows that are not retained, and no others |
| `Reindex.Storage.InsertChanged` | crates/weave-graph-cli/src/index.rs:825-833 | every symbol of a changed file has a retained row, retained rows are symbols as parsed; rows keep their keys |
| `Reindex.Storage.PurgeStale` | crates/weave-graph-cli/src/index.rs:834-841 | of the changed files only retained rows are left |
| `Reindex.Storage.ResolveAffected` | crates/weave-graph-cli/src/index.rs:852-865 | every affected file's links are stored, and nothing else is added |
| `Watch.WatchLoop.Run` | crates/weave-graph-cli/src/watch.rs:150-181 | the batches are exactly the runs of events between quiet periods; each ticks exactly when it has an indexable change to deal with, with all of them; and in the end `pending` is the indexable paths of the changes that no tick has succeeded since |
| `Watch.WindowsAreEvents` | crates/weave-graph-cli/src/watch.rs:150-181 | end to end the windows are the events, so each event is in exactly one batch |
| `Watch.WindowsAreRuns` | crates/weave-graph-cli/src/watch.rs:150-181 | the windows are the maximal runs of events without a quiet period, all of them and in order |
| `Watch.WatchLoop.Debounce` | crates/weave-graph-cli/src/watch.rs:157-179 | one window, with the in-flight set equal to its indexable paths |
| `Watch.WatchLoop.OnBatch` | crates/weave-graph-cli/src/main.rs:1597-1621 | a tick is made with everything pending, unless nothing is; only success clears it; in-flight is empty |
| `Watch.PendingIffOpen` | crates/weave-graph-cli/src/main.rs:1568-1623 | a change is pending exactly when no tick has succeeded since it was seen |
| `Watch.TicksFace` | crates/weave-graph-cli/src/main.rs:1597-1621 | each round ticks exactly when something indexable is pending or new, with the paths of all of it, as the next tick |

## Left out

- Machine widths: `u32` and `u64` counters, ids and lengths do not overflow in the model; numbers in job file names and their parsing do respect 64 bits.
- Floating point: Louvain weights are integers and gains are compared scaled by twice the total weight, so rounding is not modelled.
- File operations that fail for other reasons than a missing upload, partial writes, and two threads writing one upload file at once.
- `PushRate.AcceptedAtMost`: the files of expired uploads are deleted in one step of their handler, and requests other than PUT take up no connection.
- Registry restarts in the middle of a run and the eviction of an idle worker; properties of head, "latest" and the push rate are within the lifetime of one opened state.
- `BlobStore.RepoStore.Commit`: signature sidecars next to blobs and jobs, and signature verification, are not modelled.
- `HubServer.RepoState.FinishUpload`: does not verify a signature before the decision; signing keys and signatures are not modelled, so a push that fails verification is not among its answers.
- Bodies and headers of replies other than the upload offset: the seconds of `Retry-After` are part of a decision but not of a reply, and the client does not wait for them.
- Webhooks, canvases and policy lint of the hub, bearer auth, RBAC, TLS and HTTP parsing.
- `Upload.UploadIsExact`: one payload per commit; two different payloads pushed to one sha at once are not covered, and each request for the commit is served without interruption.
- Monikers are pairs of path and symbol, so a path that contains the separator `#` is not modelled.
- `Reindex.Storage.IncrementalReindex`: the resolver is an arbitrary function of a parsed file and the node table; the staging copy and its swap, end lines of symbols, vectors, full-text rows, notes and docs are not modelled.
- Equality of an incremental and a full reindex: a name already resolved elsewhere is not revisited.
- `Watch.WatchLoop.Run`: marker files and the blast radius behind the outcome of a tick are not modelled; a tick has any outcome.
- SQLite, Turso and tree-sitter: storage is a node map, an edge map and a set of references.
- Parallel parsing, thread pools and memory budgets.
- Command line, reports, rendering, synonyms, embeddings, notes and language-model routing: only easy claims to make.
