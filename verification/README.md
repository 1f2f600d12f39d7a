# Verified model of the library core

A library is a content-addressed tree: commits point to root directories, and a directory
is a listing of entries strictly descending by name. Libraries change by diff, merge and a
compare-and-set on the branch head. This project models that core and proves what it keeps.

| files | component |
|---|---|
| `FsTree`, `Lockstep` | directory trees, their meaning as sets of file paths, the walk over sorted listings that merge and diff share |
| `MergeSpec`, `MergeTheorems`, `MergeFolders`, `MergeShape`, `MergeLaws`, `MergeRun` | three-way tree merge: specification, theorems, and the loops that refine it and write the object store |
| `DiffSpec`, `DiffExact`, `DiffRun`, `Renames` | two-way tree diff: specification, exactness, the loops that refine it, and rename resolution |
| `EditFence`, `Like`, `Paths` | the edit fence, LIKE matching, path normalization and the early lock barrier |
| `Preflight` | the list of permissions a publication under rules asks the Hub for |
| `AclProof`, `Publication`, `PublicationTheorems`, `PublicationAlone`, `PublicationSteps`, `PublicationRace` | the proof of ACL rows, head publication as a transition system with locks, when a transaction that is left alone lands, the methods as its steps, and a run that shows a limit of it |
| `CommitGraph`, `CommitTheorems`, `CommitTraversal`, `CommitPages` | history traversal, whole and page by page |
| `RouteCache`, `Reservation`, `ReservationAlone` | storage routing: the route cache, the routing decision, reservation of a new library |
| `DirCodec`, `Chunking` | the version-0 directory object, fixed-size block splitting by a worker pool |
| `Groups` | nested groups and the queries on their stored ancestor paths |
| `Options`, `Strings` | optional values, shared notions on strings |

How the model is built:

- A directory id is the listing it is the digest of, so two listings share an id only when they
  are equal. The object store is the set of ids present. Files and empty directories may share
  the all-zero id.
- Code that works by changing things is a method, in a class where it updates fields, and its
  contract ties it to a specification function. The theorems are about those functions.
- Concurrent protocols (publication, reservation, the worker pool) are transition systems; a
  theorem speaks of every state or step of every finite run.
- The conflict name of an entry is a parameter that may be any function, or absent. Where a
  property needs fresh names the lemma says so.

Where a property is false of the code, the condition under which it holds is proved, and an
input or a run shows that it fails without: `MergeShape.MergeWf` with `MergeLaws.ClashExample`,
`DirCodec.RoundTrip`, `Chunking.SuccessIff` with `Chunking.WrongSuccess`, `Paths.BarrierIsFence`, `Reservation.UuidKey`,
`Reservation.CheckedBefore` and `Reservation.StaleNative` with `Reservation.LateLibrary`,
`PublicationTheorems.NoReturn` and `PublicationTheorems.AuthorizedInForce` with `PublicationRace.RestoredRule`,
`CommitPages.ChainBounded` with `CommitPages.CycleEndless`.

## Model

| member | source | states |
|---|---|---|
| `FsTree.ReadDir` | common/fs-mgr.c:1875-1903 | the empty directory needs no object, every directory of a closed tree can be read, and a missing object cannot |
| `FsTree.BeforeIff` | common/merge-new.c:589-595 | names are ordered by their first difference, a shorter one before its extensions |
| `FsTree.SortDescending` | common/merge-new.c:589-595 | sorting gives a strictly descending listing exactly when no two entries share a name |
| `FsTree.SortStable` | common/merge-new.c:589-595 | sorting keeps entries that share a name in their order |
| `FsTree.DescendingCanonical` | common/merge-new.c:589-595 | a set of entries has only one strictly descending listing |
| `Lockstep.RowsSound` | common/merge-new.c:597-713 | every row of the walk holds exactly the entries the three listings have for its name |
| `Lockstep.RowsComplete` | common/merge-new.c:597-713 | every name of any of the listings gets a row |
| `Lockstep.RowsDistinct` | common/merge-new.c:597-713 | no name gets two rows |
| `MergeSpec.MergeKeeps` | common/merge-new.c:597-713 | every entry a name emits is in the merged listing |
| `MergeSpec.MergeOrigin` | common/merge-new.c:597-713 | every entry of the merged listing was emitted by some name |
| `MergeTheorems.HeadKept` | common/merge-new.c:174-587 | a head file that is not base's (or that remote has too) is in the result at its path with its id, whatever the conflict names; its whole entry is head's, or remote's where remote has that file too |
| `MergeTheorems.RemoteKept` | common/merge-new.c:174-587 | a remote file that is not base's is in the result with its id, at its path up to conflict-renamed components, and at its own path when no conflict was reported; mode, time, author and size are remote's, or head's where head has that file too |
| `MergeTheorems.EntryJustified` | common/merge-new.c:174-587 | every entry of the result, file or directory, has the kind and metadata of head's entry at that path or of remote's up to conflict names; a file has its id too, and is owed by the three-way rule |
| `MergeTheorems.Justified` | common/merge-new.c:174-587 | every file of the result comes from head at that path or from remote up to conflict names, and one that base had is kept only if both sides kept it |
| `MergeTheorems.NotResurrected` | common/merge-new.c:174-587 | a base file that is no longer on both sides does not come back at a path that is no conflict name |
| `MergeTheorems.ThreeWayRule` | common/merge-new.c:174-587 | a merge without conflict computes exactly the three-way rule, file by file |
| `MergeFolders.HeadFolderKept` | common/merge-new.c:427-587 | a directory of head, empty or not, that is new or that remote has too is a directory of the result, whatever the conflict names |
| `MergeFolders.RemoteFolderKept` | common/merge-new.c:427-587 | a directory of remote that is new or that head has too is in the result up to conflict-renamed components, and at its own path when no conflict was reported |
| `MergeFolders.FolderJustified` | common/merge-new.c:427-587 | every directory of the result is a directory of head at that path or of remote up to conflict names |
| `MergeShape.ConflictIff` | common/merge-new.c:174-406 | a name is in conflict exactly when head and remote both have it, not both as directories, and both changed it |
| `MergeShape.RowNamesAre` | common/merge-new.c:174-587 | a name leaves nothing, itself, or in a conflict itself and one conflict name |
| `MergeShape.LevelIff` | common/merge-new.c:174-587 | the names left in a directory are distinct if and only if the conflict names are free |
| `MergeShape.MergeWf` | common/merge-new.c:597-713 | the merged tree is a legal tree if and only if in every visited directory the names for the entries in conflict can be generated, are no name that stays, and differ |
| `MergeShape.FreshNoClash` | common/merge-new.c:597-713 | conflict names that are fresh in every visited directory meet that condition |
| `MergeShape.FreshMergeWf` | common/merge-new.c:597-713 | so with fresh conflict names the result is legal input to merge and diff again |
| `MergeShape.FreshNotResurrected` | common/merge-new.c:174-587 | with fresh conflict names, a base file left alone by one side and gone on the other is not in the result at its path |
| `MergeLaws.ColumnsOf` | common/merge-new.c:597-713 | the walk hands out every entry of head and remote once, in listing order |
| `MergeLaws.UnchangedRemote` | common/merge-new.c:199-403 | base equal to remote, or head equal to remote, gives exactly head, no conflict and no object written |
| `MergeLaws.UnchangedHead` | common/merge-new.c:449-503 | base equal to head gives remote's tree, with head's metadata on the entries whose ids agree |
| `MergeLaws.ClashExample` | common/merge-new.c:174-406 | a conflict name that head already uses makes an illegal listing |
| `MergeRun.MergeSession.SaveDir` | common/fs-mgr.c:1852-1873 | saving adds just that object, if it is missing and not empty, and fails when it cannot be written |
| `MergeRun.MergeSession.ThreewayMerge` | common/merge-new.c:174-406 | the file cases emit what the specification says and set the conflict flag exactly then; a conflict for which no name can be generated fails |
| `MergeRun.MergeSession.MergeDirectories` | common/merge-new.c:427-587 | the directory cases keep, skip or merge recursively as specified |
| `MergeRun.MergeSession.MergeTreesRecursive` | common/merge-new.c:597-713 | one level refines the specification, for every store and every failing write |
| `MergeRun.MergeSession.SaveMerged` | common/merge-new.c:676-692 | a merged level equal to head's or remote's is not written again |
| `MergeRun.MergeSession.MergeTrees` | common/merge-new.c:715-749 | the merged root is the specified one; an unchanged side gives head's root id and leaves the store alone; every directory reachable from the merged root is in the store; closed inputs never fail unless a write fails; a merge that succeeds has a name for every entry in conflict |
| `DiffExact.SpellInjective` | common/diff-simple.c:265-333 | different paths are spelled differently |
| `DiffExact.DiffComplete` | common/diff-simple.c:65-258 | every change of a path is listed although subtrees with equal ids are skipped; folded, if its directories are on both sides |
| `DiffExact.DiffSound` | common/diff-simple.c:65-258 | every listed entry is a change of some path |
| `DiffExact.DiffExactly` | common/diff-simple.c:65-333 | folded or not, each entry is listed once if a path changed that way (files by presence, id, mode or mtime; directories gone; new directories if empty or folded) and not at all otherwise |
| `DiffExact.ListedAt` | common/diff-simple.c:65-333 | what is listed under the name of a path is the change between the two entries there, each once |
| `DiffExact.FileModified` | common/diff-simple.c:65-71 | a file on both sides of a path gets one entry, with the new id and both sizes, if and only if its id, mode or modification time differs, and no other entry |
| `DiffExact.StatusExact` | common/diff-simple.c:265-333 | which statuses are listed under the name of a path, from kind, id, mode and time of the two entries, folded or not |
| `Renames.CountEmpty` | common/diff-simple.c:574-697 | empty content may be paired only when exactly one such entry was deleted and one added |
| `Renames.CollectDeleted` | common/diff-simple.c:574-697 | the tables point at a deletion of every id that may be paired |
| `Renames.CollectAdded` | common/diff-simple.c:574-697 | the list holds exactly the additions that may be paired |
| `Renames.PairOne` | common/diff-simple.c:574-697 | replacing an addition and its deletion by a rename keeps the meaning and all other additions |
| `Renames.PairAll` | common/diff-simple.c:574-697 | the loop pairs every addition whose id is in a table, at most once per id |
| `Renames.ResolveRenames` | common/diff-simple.c:574-697 | expanding renames gives the input back as a multiset; exactly one rename per kind and non-empty id both deleted and added, empty content only when unambiguous; every other entry is an input entry as it was, and a rename goes from the name of a deleted entry to that of an added one with its id |
| `DiffRun.DiffData.TwowayDiffFiles` | common/diff-simple.c:265-296 | prepends the entry for a file name that `DiffExact.FileModified` and `DiffExact.StatusExact` are about |
| `DiffRun.DiffData.TwowayDiffDirs` | common/diff-simple.c:298-333 | the entry for a directory name, and whether to go on below |
| `DiffRun.DiffData.DiffDirectories` | common/diff-simple.c:97-154 | the directory part of one name, recursion included |
| `DiffRun.DiffData.DiffTreesRecursive` | common/diff-simple.c:156-227 | the walk prepends exactly the specified entries, and fails only on a missing object |
| `DiffRun.DiffData.DiffCommitRoots` | common/diff-simple.c:380-409 | the result is the exact diff with its renames resolved |
| `EditFence.ReadGuards` | common/cf-v2-edit-fence.c:21-36 | guard rows are accepted exactly when there are at most 8192 and each is valid UTF-8 of 1 to 4096 bytes that starts with a slash |
| `EditFence.CheckUnscopedBranch` | common/cf-v2-edit-fence.c:215-261 | passes exactly when the prepared changes are for this repository and these commits and none touches a guard; an invalid policy or an unreadable guard table refuses |
| `EditFence.PrepareUnscopedBranch` | common/cf-v2-edit-fence.c:171-213 | the candidate's changes are the resolved diff of the two roots; preparation succeeds whenever both trees can be read |
| `EditFence.RenameKeepsPath` | common/diff-simple.c:574-697 | rename resolution hides no changed path |
| `EditFence.PrefixTouches` | common/cf-v2-edit-fence.c:38-49 | a change at a guarded path or at an ancestor of it touches the guard |
| `EditFence.FenceProtects` | common/cf-v2-edit-fence.c:171-261 | changes that pass leave a file at every guarded path, and at each ancestor path, with the same id, mode and modification time in both trees, or absent in both, and remove no directory there |
| `Preflight.PreflightScoped` | common/cf-v2-acl.c:434-527 | allows exactly when the changes can be listed, every path is canonical, there are not too many, there is one, and the Hub authorizes the list |
| `Preflight.CollectChecks` | common/cf-v2-acl.c:468-510 | the loop sends the checks of all changes, or refuses |
| `Preflight.EveryChangeAsked` | common/cf-v2-acl.c:468-510 | every path that the publication changes, both ends of a rename included, is in the list with its kind |
| `Preflight.NothingElseAsked` | common/cf-v2-acl.c:468-510 | every path in the list is one that the publication changes |
| `Preflight.AskedExact` | common/cf-v2-acl.c:408-510 | a path is asked for as a file if and only if a file came, went or differs in id, mode or time there, and as a directory if and only if one went or an empty one came |
| `Like.EscapedLiteral` | common/cf-lock.c:24-37 | escaped text matches itself, with percent, underscore and backslash in it |
| `Like.EscapedPrefix` | common/cf-lock.c:24-37 | escaped text and `%` match exactly the texts that start with it |
| `Like.Contains` | common/group-mgr.c:911-945 | `%` around plain text matches exactly the texts that contain it |
| `Paths.ComponentsJoin` | common/cf-path.c:34-49 | splitting at any slash splits the component list |
| `Paths.NormalIdempotent` | common/cf-path.c:7-32 | normalization is idempotent and gives one text per component list |
| `Paths.Normalize` | common/cf-path.c:7-32 | the result is the rendered component list, also for a missing or empty path |
| `Paths.Join` | common/cf-path.c:34-49 | the components of one path after those of the other |
| `Paths.HasComponent` | common/cf-path.c:51-74 | true exactly for a member of the component list |
| `Paths.LikeDescendantPattern` | common/cf-lock.c:24-37 | the loop builds the escaped pattern |
| `Paths.PatternExact` | common/cf-lock.c:24-37 | the pattern matches exactly the paths that start with the path and a slash |
| `Paths.BarrierExact` | common/cf-lock.c:41-70 | the barrier stops an operation exactly when its component list is a prefix of the guarded one, the root included |
| `Paths.FenceExact` | common/cf-v2-edit-fence.c:38-49 | the fence has the same relation, but at the root only for a guard on the root |
| `Paths.BarrierIsFence` | common/cf-lock.c:72-104 | barrier and fence agree if and only if the path is not the root or the guard is on the root |
| `Paths.CheckPath` | common/cf-lock.c:72-104 | locked exactly when some guard is hit; unavailable when the policy is invalid or a query failed first |
| `AclProof.EncodeInjective` | common/cf-v2-acl.c:79-169 | scopes with the same proof bytes have the same repository, rows, origin and origin rows |
| `AclProof.ProofRow` | common/cf-v2-acl.c:79-100 | feeds the six columns, refuses a NULL |
| `AclProof.ProofRepo` | common/cf-v2-acl.c:102-128 | feeds the id and every row, refuses too many rows |
| `AclProof.Proof` | common/cf-v2-acl.c:130-169 | when it succeeds, that it then covers repository, rows, origin and origin rows, and that it reports rules if and only if one of the two has a row |
| `Publication.ActKeeps` | common/branch-mgr.c:193-628 | no step of one process changes what another process holds a lock on |
| `Publication.InvStep` | common/branch-mgr.c:455-628 | every step of every publisher, branch writer and ACL writer keeps the invariant |
| `PublicationTheorems.RunInv` | common/branch-mgr.c:455-628 | so it holds in every state of every interleaving |
| `PublicationTheorems.LandReplacesHead` | common/branch-mgr.c:455-628 | a publication replaces exactly the head it compared and changes nothing else |
| `PublicationTheorems.NoDoublePublish` | common/branch-mgr.c:455-628 | two publications from one old head both succeed only if the head returned to it in between |
| `PublicationTheorems.HeadMoves` | common/branch-mgr.c:193-368 | whenever a head moves, a publication that compared it moved it to its new commit, or a plain write in a scope without a single ACL row moved it to its commit or deleted it |
| `PublicationTheorems.WriterLands` | common/branch-mgr.c:193-368 | what add, delete and update leave as the head of their branch, that no other head and no other table changes, and that there is no ACL row when they land |
| `PublicationTheorems.AclLands` | common/cf-v2-acl.c:71-78 | an ACL write leaves its rows for its repository and changes nothing else |
| `PublicationTheorems.MasterExclusive` | common/branch-mgr.c:180-191 | while a branch or ACL writer that found a master row is in its transaction, no publication to that branch is past its comparison of the head |
| `PublicationTheorems.NoLockLeft` | common/branch-mgr.c:193-628 | in every state of every run a transaction that landed or rolled back holds no lock |
| `PublicationAlone.PublishesAlone` | common/branch-mgr.c:455-628 | a publication lands, if it is left alone, when the rows can be read, there are none or the Hub allows the change of a library that is not virtual, head and GC id are as compared, and no guard is touched |
| `PublicationAlone.AloneNeeds` | common/branch-mgr.c:455-628 | and only then |
| `PublicationAlone.WritesAlone` | common/branch-mgr.c:193-368 | a plain branch write lands, if it is left alone, when neither repository nor origin has an ACL row |
| `PublicationAlone.WriteNeeds` | common/branch-mgr.c:193-368 | and only then |
| `PublicationSteps.PrepareFor` | common/cf-v2-edit-fence.c:171-213 | preparation yields changes that the protocol's step allows, always when the trees can be read, and with nothing to compare the only ones |
| `PublicationSteps.CheckFor` | common/cf-v2-edit-fence.c:215-261 | the check under the lock passes exactly when the protocol's step is enabled for that candidate and the guards can be read |
| `PublicationSteps.ProofFor` | common/cf-v2-acl.c:130-169 | the proof succeeds only where the protocol's reads are enabled; its bytes encode the scope that the protocol compares, and it reports rules exactly when there is one |
| `PublicationTheorems.LandsOnSeenRows` | common/branch-mgr.c:577-589 | with a collision-free digest a publication lands only on the rows read before the Hub decided, and one that skipped the Hub only on a rule-free scope |
| `PublicationTheorems.SeenAt` | common/branch-mgr.c:472-501 | the rows of the proof are those at the step that read them, and the Hub decided on the rows of a later step |
| `PublicationTheorems.ReadOnce` | common/branch-mgr.c:472-501 | a publisher reads its proof once |
| `PublicationTheorems.NoReturn` | common/cf-v2-acl.c:71-78 | rows equal at both ends of a window were the same in between if and only if every ACL change in it brought a new revision |
| `PublicationTheorems.AuthorizedInForce` | common/cf-v2-acl.c:434-527 | when that is so between the proof and the landing, a publication that lands under rules is one the Hub allows under the rows in force as it lands |
| `PublicationRace.RestoredRule` | common/branch-mgr.c:472-501 | for every repository and rules there is a run that lands on the rows of its proof although the Hub refuses them: they were deleted while it decided and put back |
| `PublicationTheorems.LandRespectsGuards` | common/branch-mgr.c:577-628 | a publication leaves id, mode and modification time of a file at every guard active as it lands the same |
| `CommitGraph.CompareExact` | common/commit-mgr.c:318-326 | the comparison truncated to 32 bits orders by time while times differ by less than 2^31 |
| `CommitGraph.InsertSortedSorted` | common/commit-mgr.c:328-357 | insertion keeps the work list newest first |
| `CommitGraph.InsertPlace` | common/commit-mgr.c:328-357 | a commit is inserted behind the strictly newer ones and before those of the same time |
| `CommitTraversal.FollowParent` | common/commit-mgr.c:328-357 | following a parent keeps the traversal invariant and does not add work; a stored parent is then seen, and a missing one is an error unless truncation is allowed |
| `CommitTraversal.VisitNext` | common/commit-mgr.c:467-559 | one round keeps the traversal invariant and shrinks what is left; it fails if and only if errors count and the callback failed or a parent that had to be followed is missing |
| `CommitTraversal.Traverse` | common/commit-mgr.c:467-559 | terminates on any finite graph, cyclic ones too; success means exactly the commits reachable around the stops, once each, each when nothing pending is newer; when errors count it succeeds only if the callback did on every commit, and it stops at the first commit where the callback failed or a parent is missing; it succeeds when that never happens |
| `CommitTraversal.TraverseWithLimit` | common/commit-mgr.c:359-465 | a page ends with at most one waiting commit, which is the continuation, and it ends at the first commit where it has the limit and no unmerged branch is pending; newest first; success and failure as for the full traversal |
| `CommitTheorems.PageComplete` | common/commit-mgr.c:359-465 | what is reachable and unvisited is reachable from the continuation |
| `CommitTheorems.TraversalExact` | common/commit-mgr.c:467-559 | a full traversal visits a commit exactly when it is reachable |
| `CommitTheorems.ChildrenFirst` | common/commit-mgr.c:467-559 | with strictly older parents every commit comes after its children |
| `CommitTheorems.PageDisjoint` | common/commit-mgr.c:359-465 | with strictly older parents nothing visited is reachable from the continuation |
| `CommitPages.PagesSound` | common/commit-mgr.c:359-465 | pages hold nothing but the history of their head |
| `CommitPages.PagesCover` | common/commit-mgr.c:359-465 | whatever is not on the pages yet is reachable from their continuation, for chains of pages that have not ended too |
| `CommitPages.PathOnPages` | common/commit-mgr.c:359-465 | the end of a parent path is on one of the first pages, as many as the path is long, on cyclic graphs too |
| `CommitPages.PagesComplete` | common/commit-mgr.c:359-465 | the pages are all of history and nothing else as soon as there is no continuation or there are as many pages as commits, whatever the graph |
| `CommitPages.PagesDisjoint` | common/commit-mgr.c:359-465 | with strictly older parents no commit is on two pages, ended or not |
| `CommitPages.ChainBounded` | common/commit-mgr.c:359-465 | when no two different commits are each other's ancestors there are never more pages than commits, so following continuations ends |
| `CommitPages.ChronologicalAcyclic` | common/commit-mgr.c:318-326 | strictly older parents rule such cycles out |
| `CommitPages.FetchAll` | common/commit-mgr.c:359-465 | fetching page after page ends and visits exactly the history; it succeeds when errors are skipped, or no commit is missing and the callback never fails, and when errors count only if the callback succeeded on every commit |
| `CommitPages.CyclePage` | common/commit-mgr.c:359-465 | on two commits that are each other's parent, a traversal with limit 1 returns one commit and the other as the continuation |
| `CommitPages.CycleEndless` | common/commit-mgr.c:359-465 | fetching page after page on such a cycle goes on for ever: any number of pages is fetched, each with a continuation |
| `RouteCache.Cache.Lookup` | common/cf-v2-storage.c:143-162 | a hit is the latest put of the id, not forgotten since, made less than 10 seconds ago if it has a route row and less than one second ago otherwise; an expired entry is dropped |
| `RouteCache.Cache.Store` | common/cf-v2-storage.c:164-187 | the entry becomes the most recently used; a full cache loses exactly its least recently used one |
| `RouteCache.Cache.Drop` | common/cf-v2-storage.c:189-198 | forgetting removes just that id |
| `RouteCache.Cache.Remove` | common/cf-v2-storage.c:132-141 | removal keeps index and queue in step |
| `RouteCache.Cache.Bounded` | common/cf-v2-storage.c:105-198 | index and queue have the same size, at most 1024 |
| `Reservation.CheckKey` | common/cf-v2-storage.c:70-81 | the loop accepts exactly the valid keys |
| `Reservation.UuidKey` | common/cf-v2-storage.c:70-81 | a library id is a valid key exactly when it has no upper-case letter |
| `Reservation.StoreDir` | common/cf-v2-storage.c:212-285 | decides from fresh cached facts or else from the tables, refuses when they cannot be read, and caches only what resolved; without a hit the answer is the one of the rows of the id |
| `Reservation.LookupExact` | common/cf-v2-storage.c:243-274 | a lookup gives the directory of the key that the route row names, if it is a valid key of a directory that is there; the native tree if and only if there is no route, a library or virtual row exists and a marker, if any, is the native one, active or retired; it refuses otherwise |
| `Reservation.InvStep` | common/cf-v2-storage.c:290-368 | every step of every reservation, failures and a lost acknowledgement included, keeps the invariant |
| `Reservation.RunInv` | common/cf-v2-storage.c:290-368 | so it holds in every run |
| `Reservation.ReservedNeverNative` | common/cf-v2-storage.c:212-285 | a reserved library has its directory and never resolves to the native tree, with its route lost or retired too |
| `Reservation.OneSuccess` | common/cf-v2-storage.c:290-353 | at most one reservation of an id succeeds |
| `Reservation.StaysReserved` | common/cf-v2-storage.c:290-353 | a reservation that reached the database is never undone |
| `Reservation.RouteHasDirectory` | common/cf-v2-storage.c:290-353 | a route row written by a reservation has its directory, then and ever after |
| `Reservation.NoTakeover` | common/cf-v2-storage.c:290-353 | no step replaces an existing route or marker key |
| `Reservation.CheckedBefore` | common/cf-v2-storage.c:306-330 | whatever a reservation inserts, it checked before that the id had no route and no library |
| `Reservation.StaleNative` | common/cf-v2-storage.c:212-285 | facts read earlier, cached or not, send a reserved id to the native tree if and only if they were read before the reservation was persisted, while the id had a library or virtual row and no route |
| `Reservation.LateLibrary` | common/cf-v2-storage.c:290-353 | a run in which a library row appears between check and commit, and a lookup read native facts before |
| `ReservationAlone.CommitExact` | common/cf-v2-storage.c:290-353 | a persisted commit leaves the route and an active marker of the id and nothing else; only an acknowledged one is a success |
| `ReservationAlone.UndoExact` | common/cf-v2-storage.c:338-343 | a reservation that gives up before its commit takes away its own directory and nothing else |
| `ReservationAlone.RetireExact` | common/cf-v2-storage.c:355-368 | retiring changes the state of the marker and nothing else |
| `ReservationAlone.ReservesAlone` | common/cf-v2-storage.c:290-353 | a reservation of an id that has no directory, route, library or marker succeeds, if it is left alone and nothing fails |
| `ReservationAlone.AloneNeeds` | common/cf-v2-storage.c:290-353 | and only then |
| `DirCodec.RoundTrip` | common/fs-mgr.c:1530-1589 | a listing survives encoding and decoding if and only if no name is longer than 255 bytes and the last name is not empty |
| `DirCodec.DecodeEncoded` | common/fs-mgr.c:1530-1589 | with short names only a last empty one is dropped |
| `DirCodec.BigValue` | common/fs-mgr.c:1743-1777 | modes and lengths are stored most significant byte first |
| `DirCodec.LittleValue` | common/fs-mgr.c:1424-1429 | modes are digested least significant byte first |
| `DirCodec.ComputeId` | common/fs-mgr.c:1405-1434 | the id digests id, name and little-endian mode of every entry; the empty listing has the zero id |
| `DirCodec.IdInputInjective` | common/fs-mgr.c:1405-1434 | the digested bytes tell listings apart when ids and names have no NUL and modes are below 2^16 |
| `DirCodec.ToData` | common/fs-mgr.c:1743-1777 | the buffer holds exactly the encoding, behind the type word 3 |
| `DirCodec.FromData` | common/fs-mgr.c:1530-1589 | the loop computes the decoding, errors included; data shorter than its type word is an empty directory or an error by the word read |
| `DirCodec.Verify` | common/fs-mgr.c:2804-2877 | accepts exactly data that decodes to entries whose digest is the id |
| `DirCodec.EncodeAndVerify` | common/fs-mgr.c:2804-2877 | every encoded directory that survives encoding is accepted under its own id and no other |
| `Chunking.MakeChunks` | common/fs-mgr.c:718-734 | one chunk per block, in order, ceil(size / block) of them |
| `Chunking.Partition` | common/fs-mgr.c:718-734 | the blocks laid end to end are the file |
| `Chunking.LengthsExact` | common/fs-mgr.c:718-734 | every worker reads its whole block if and only if the longest block fits a 32-bit length |
| `Chunking.Quotient` | common/fs-mgr.c:663-664 | the slot of a chunk is its block number |
| `Chunking.RunInv` | common/fs-mgr.c:621-764 | in every interleaving the slot of a chunk that finished well holds its checksum, or is untouched if its kept length is 0, and slots of waiting chunks are untouched |
| `Chunking.SuccessExact` | common/fs-mgr.c:621-764 | in whatever order the workers finish, success means slot i holds the checksum of block i when lengths fit |
| `Chunking.SuccessIff` | common/fs-mgr.c:621-764 | for an injective checksum, a successful run leaves every block's checksum in its slot if and only if no block is too long for a 32-bit length |
| `Chunking.Succeeds` | common/fs-mgr.c:621-764 | every file has a successful run |
| `Chunking.WrongSuccess` | common/fs-mgr.c:621-764 | with a block too long for a 32-bit length there is a run that reports success and leaves a wrong slot |
| `Chunking.OrderIrrelevant` | common/fs-mgr.c:736-749 | two successful runs leave the same slots |
| `Groups.ParsePath` | common/group-mgr.c:687-728 | reading a stored path back gives the chain of ids |
| `Groups.PathMatchesExact` | common/group-mgr.c:911-945 | the LIKE test on a path finds exactly the ids before the last, with no match between ids that share digits |
| `Groups.AncestorQueryExact` | common/group-mgr.c:687-728 | the IN query finds exactly the ancestors and the group |
| `Groups.DescendantQueryExact` | common/group-mgr.c:911-945 | the LIKE query finds a group exactly when it descends from the given one or is it |
| `Groups.CreationConsistent` | common/group-mgr.c:255-344 | creation keeps every stored path equal to its parent chain |
| `Groups.GroupManager.Create` | common/group-mgr.c:255-344 | the new rows, when creation fails, that the id is returned without a row when the commit fails, and that every stored path stays its parent chain |
| `Groups.GroupManager.Remove` | common/group-mgr.c:462-508 | refused exactly when a group has it as parent; otherwise removes just its rows |
| `Groups.GroupManager.Ancestors` | common/group-mgr.c:687-728 | returns exactly the ancestors and the group itself, for structured and other groups |
| `Groups.GroupManager.Descendants` | common/group-mgr.c:911-945 | returns exactly the structured descendants and the group itself |

## Left out

- Two-way merge: only the three-way merge is modelled.
- The count of visited directories that a merge reports to its caller is not modelled.
- Conflict names, nicknames and modification times: `gen_conflict_path` is a parameter. Its text depends on the clock, and it is not shown to be fresh.
- Digests are idealized: directory ids and the ACL proof are collision-free, other checksums are arbitrary functions. That the digested bytes of version 0 determine the listing is `DirCodec.IdInputInjective`.
- The three-way diff and `diff_resolve_empty_dirs` are not modelled.
- The Hub's decision is an uninterpreted function of rows, repository and the two commits; the list of checks it gets is modelled on its own.
- MySQL, SQLite, JSON, curl and Redis calls: only rows, locks, and success or failure. The non-MySQL branches are not modelled. LIKE is bytewise.
- The JSON directory format: only version 0 is modelled.
- Publication.InvStep: guard rows and GC ids change in single atomic steps; their own writers are not modelled.
- PublicationTheorems.AuthorizedInForce: needs ACL edits that bring a new revision between proof and landing; RestoredRule is the run without, and LandsOnSeenRows is what holds then.
- MergeTheorems.NotResurrected: a generated conflict name equal to the path can bring the id back there; FreshNotResurrected has the version for fresh names.
- DirCodec.FromData: a decoded name is its bytes; a NUL byte inside it, which ends a C string, is not modelled.
- DirCodec.ToData: sizes do not wrap around.
- Chunking.SuccessExact: the file does not change while it is read, block counts fit an int, and the checksum of an encrypted block is not modelled.
- RouteCache.Cache.Store: the mutex is not modelled; every operation is atomic.
- Reservation.InvStep: directories below the storage root are removed only by the reservation that made them; garbage collection is not modelled.
- Groups.GroupManager.Create: the id read back by name, creator and time is the id of the new row, and a path longer than its column is refused.
- Groups.GroupManager.Remove: forced removal, which leaves child paths without a live chain, is not modelled; its deletes succeed.
- CommitTraversal.Traverse: loading a commit either finds it or not; caching and reference counts are not modelled.
- Filesystem and S3 back ends, configuration, logging, users and organizations: mostly I/O or forwarding.
