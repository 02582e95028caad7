# Storage layer core of a versioned model repository, in Dafny

This project models three sequential pieces of the storage layer.

- **Storage utilities** (`src/common/storage/util.js`):
  - the conversions between a project id `owner+name`, a full name `owner/name` and a displayed name `owner / name`;
  - the `#` tagging of hashes;
  - `orderCommits`, which turns a set of commits into one newest-first history. It does this by a round-robin walk over a list of heads that moves as the walk goes.
- **DynamoProject** (`src/server/storage/datastores/dynamoproject.js`): one project's object table and branch map.
  - The object table is insert-once: hashes are checked for form before the table is touched, an equal re-insert succeeds, and a stored object is never overwritten.
  - The branch map is written through a four-way compare-and-swap, with `''` meaning an absent branch.
- **Neo4jAdapter** (`src/server/storage/datastores/neo4jadapter.js`):
  - a reference-counted connection;
  - the create/open/delete/rename operations on projects, which need that connection.

Modules and files:

- `wrappers.dfy`:
  - `Wrappers`: Option and Result.
  - `Js`: a JavaScript argument as the code tests it, either a string or something else.
- `storage_util.dfy`: `StorageUtil`, pure functions with round-trip lemmas and the repository's test cases.
- `commit_order.dfy`: `CommitOrder`.
  - `OrderCommits` is the imperative method, with the source's loops over `commitsMap`, `parents`, `heads`, `i`, `n` and `k`.
  - It is proved equal to `Linearize`, a functional walk. In the walk, `DoStep` is one pass of the do-while, `Inner` is the do-while and `Outer` is the while loop.
  - The line-145 correction is a second revision of `DoStep`, named `Corrected`.
- `commit_order_proofs.dfy`: `CommitOrderProofs`.
  - Every emitted commit comes from the input.
  - With line 145 corrected and for an input without repeated commits, no commit is emitted twice, so a successful result is a permutation of the input.
- `commit_order_examples.dfy`: `CommitOrderExamples`, which proves what the walk returns on the repository's chain test, on the two inputs behind the findings below, and on an input that holds one commit twice.
- `dynamo_project.dfy`: `Dynamo`.
  - Specification functions over maps: `Load`, `Insert` and `SetBranch`, with lemmas about them.
  - Class `DynamoProject`, with map fields `objects` and `branches`. The methods `LoadObject`, `InsertObject` and `SetBranchHash` are proved to return exactly `Load`, `Insert` and `SetBranch` of the current state. The getters `GetBranches` and `GetBranchHash` are specified directly against the branch map.
- `neo4j_adapter.dfy`: `Neo4j`.
  - Connection functions `Opened`, `Closed` and `Replay`, with an invariant and a replay lemma.
  - Project functions `Create`, `Find`, `Delete` and `Rename`.
  - Class `Adapter`, with fields `connectionCnt`, `client` and `projects`.

Modelling conventions:

- Each backend call (`getItem`, `putItem`, `hget`, `hset`, `hsetnx`, `hdel`, `hgetall`, the Neo4j node queries) is one atomic step on a map or a set.
- The separators come from the tests (`test/common/storage/util.spec.js:15,24,32`): `+` in ids, `/` in names.
- JavaScript `String.replace` with a string pattern replaces only the first occurrence, and the model does the same.

## Model

| member | source | states |
|---|---|---|
| StorageUtil.IndexOf | src/common/storage/util.js:29-38 | `indexOf`: -1 exactly when the character is absent, otherwise the position of its first occurrence |
| StorageUtil.ReplaceFirst | src/common/storage/util.js:11-25 | `replace` with a string pattern: unchanged when the character is absent; otherwise the string splits as `u + c + v` with no `c` in `u`, and the result is `u + rep + v`, one character longer per extra character of `rep` |
| StorageUtil.IndexOfAfter | src/common/storage/util.js:29-38 | `indexOf` finds the separator right after a prefix that holds none, at the prefix's length |
| StorageUtil.ReplaceFirstAt | src/common/storage/util.js:11-25 | for every `u` without `c`, replacing in `u + c + v` gives `u + rep + v`: only the first occurrence is rewritten |
| StorageUtil.Given | src/common/storage/util.js:12-35 | the `if (projectId)` truthiness test: undefined, null and `''` fail it; no contract of its own, its meaning is stated by the `r.Some? <==> Given(..)` clauses of the project-id helpers |
| StorageUtil.ProjectFullNameFromProjectId | src/common/storage/util.js:11-15 | defined exactly when an id is given (undefined, null and `''` are not); the result has the id's length |
| StorageUtil.ProjectDisplayedNameFromProjectId | src/common/storage/util.js:16-20 | defined exactly when an id is given; two characters longer when the id holds a `+` |
| StorageUtil.ProjectIdFromProjectFullName | src/common/storage/util.js:21-25 | defined exactly when a name is given; the result has the name's length |
| StorageUtil.ProjectIdFromOwnerIdAndProjectName | src/common/storage/util.js:26-28 | the id holds a `+` and is one character longer than its two parts together |
| StorageUtil.ProjectNameFromProjectId | src/common/storage/util.js:29-33 | defined exactly when an id is given; an id without `+` is its own project name |
| StorageUtil.OwnerFromProjectId | src/common/storage/util.js:34-38 | defined exactly when an id is given; the owner holds no `+`, and is `''` for an id without one |
| StorageUtil.FullNameOfProjectId | src/common/storage/util.js:11-15 | `owner+name` becomes `owner/name` when the owner holds no `+` |
| StorageUtil.DisplayedNameOfProjectId | src/common/storage/util.js:16-20 | `owner+name` becomes `owner / name` when the owner holds no `+` |
| StorageUtil.ProjectIdOfFullName | src/common/storage/util.js:21-25 | `owner/name` becomes `owner+name` when the owner holds no `/` |
| StorageUtil.IdFullNameRoundTrip | src/common/storage/util.js:11-25 | id to full name and back gives the id, when the owner holds neither separator |
| StorageUtil.FullNameIdRoundTrip | src/common/storage/util.js:11-25 | full name to id and back gives the full name, when the owner holds neither separator |
| StorageUtil.OwnerAndNameRoundTrip | src/common/storage/util.js:26-38 | owner and project name are recovered from the joined id when the owner holds no `+` |
| StorageUtil.ProjectIdFromItsParts | src/common/storage/util.js:26-38 | an id with a `+` is the join of its owner and its project name |
| StorageUtil.HashTaggedHash | src/common/storage/util.js:39-44 | a string comes back starting with `#`, either unchanged or with `#` prepended; an already tagged string and any non-string come back unchanged |
| StorageUtil.HashTaggedIdempotent | src/common/storage/util.js:39-44 | tagging twice is tagging once |
| StorageUtil.FullNameExamples | test/common/storage/util.spec.js:14-20 | `ownerId+projectName` gives `ownerId/projectName`; no id gives undefined |
| StorageUtil.DisplayedNameExamples | test/common/storage/util.spec.js:22-29 | `ownerId+projectName` gives `ownerId / projectName`; no id gives undefined |
| StorageUtil.ProjectIdExamples | test/common/storage/util.spec.js:31-42 | `ownerId/projectName` gives `ownerId+projectName`, no name gives undefined, and `ownerId` joined with `projectName` gives `ownerId+projectName` |
| StorageUtil.ProjectNameExamples | test/common/storage/util.spec.js:44-50 | `ownerId+projectName` has project name `projectName`; no id gives undefined |
| CommitOrder.ParentIds | src/common/storage/util.js:76-81 | the `parents` dictionary holds exactly the ids that some commit names as a parent |
| CommitOrder.PoolOf | src/common/storage/util.js:76-81 | `commitsMap` files an input commit under each input id and nothing else |
| CommitOrder.Unparented | src/common/storage/util.js:83-87 | the collected heads are exactly the input commits whose id no commit names as a parent |
| CommitOrder.InsertByTime | src/common/storage/util.js:54-64 | one insertion step of the sort adds exactly the one commit |
| CommitOrder.InsertByTimeSorted | src/common/storage/util.js:54-64 | inserting into a newest-first list keeps it newest-first |
| CommitOrder.SortByTime | src/common/storage/util.js:54-64 | `sortByTime` rearranges the heads: the same multiset |
| CommitOrder.SortByTimeSorted | src/common/storage/util.js:54-64 | the sorted heads have non-increasing `time` |
| CommitOrder.InitialHeads | src/common/storage/util.js:83-89 | defined as the unreferenced commits sorted by time, with no contract of its own; its properties are stated by InitialHeadsAreUnparented |
| CommitOrder.InitialHeadsAreUnparented | src/common/storage/util.js:83-89 | the initial heads are exactly the unreferenced input commits, with the same multiplicities, in non-increasing `time` order |
| CommitOrder.Take | src/common/storage/util.js:66-74 | `getCommit` hands out the commit filed under a known id and empties that slot; an undefined, unknown or emptied id gives nothing and leaves the map as it is |
| CommitOrder.TakeAtMostOnce | src/common/storage/util.js:66-74 | a second lookup of the same id gives nothing: each commit is handed out at most once |
| CommitOrder.FirstParent | src/common/storage/util.js:139-145 | `parents[0]`: present exactly when the commit has a parent, and then the first one |
| CommitOrder.Wrap | src/common/storage/util.js:100-101 | `% heads.length` on the values the loop produces (below twice the length), where JavaScript's and Dafny's `%` agree: an index one lap past the end comes back round |
| CommitOrder.Slot | src/common/storage/util.js:120-129 | the splice position is a valid head index, and the head there is older than the new head or it is `i` itself |
| CommitOrder.SlotIsFirstOlder | src/common/storage/util.js:120-129 | the scan stops at the first offset from `j` whose head is older than the new head; every head it passes over is at least as new; when none is older, it stops one full lap round, at `i` |
| CommitOrder.AddHead | src/common/storage/util.js:120-137 | splicing a new head in keeps the cursor on the same head, grows `heads` by one and adds nothing else |
| CommitOrder.Merge | src/common/storage/util.js:109-137 | the merge case keeps the cursor in range and takes commits out of `commitsMap` only; handing on a commit shrinks the map |
| CommitOrder.TakeParents | src/common/storage/util.js:105-140 | the parent lookup keeps `heads[i]` readable and only shrinks `commitsMap`; handing on a commit shrinks it strictly |
| CommitOrder.DoStep | src/common/storage/util.js:104-157 | one pass leaves the cursor placed, never shortens the result and never grows the map; continuing the loop takes a commit out of the map, which bounds the do-while |
| CommitOrder.Begin | src/common/storage/util.js:98-102 | the start of a round moves the cursor to `(i + 1) % heads.length`, emits exactly that head, and leaves `heads` and `commitsMap` as they are; both `i` and `n = (i + 1) % heads.length` index a head |
| CommitOrder.Outer | src/common/storage/util.js:98-158 | the while loop, from a state between rounds to the final result; defined by its body, with no contract of its own; see OuterExtends, OuterDrawn and OuterFresh |
| CommitOrder.Inner | src/common/storage/util.js:104-158 | the do-while with the rounds after it, from a state inside a round; defined by its body, with no contract of its own; see InnerExtends, InnerDrawn and InnerFresh |
| CommitOrder.InitialWalk | src/common/storage/util.js:76-92 | the walk starts with the sorted unreferenced heads, the full `commitsMap`, an empty result and `i == -1` |
| CommitOrder.Finish | src/common/storage/util.js:160-166 | success exactly when the result length equals the input length, and then the result itself; otherwise "Result not full" or "Result over full" with both lengths |
| CommitOrder.Linearize | src/common/storage/util.js:45-167 | `orderCommits` as written: a returned history has exactly as many commits as the input |
| CommitOrder.LinearizeCorrected | src/common/storage/util.js:45-167 | the same walk with line 145 corrected, which has the same length guarantee |
| CommitOrder.IndexCommits | src/common/storage/util.js:76-81 | the nested loops build exactly `commitsMap` and `parents` |
| CommitOrder.CollectHeads | src/common/storage/util.js:83-87 | the loop collects exactly the unreferenced commits, in input order |
| CommitOrder.FindSlot | src/common/storage/util.js:122-129 | the for loop over `j` computes the splice position `k` |
| CommitOrder.TakeParentsStep | src/common/storage/util.js:105-140 | the imperative parent lookup and splice produce the state of `TakeParents` |
| CommitOrder.WalkStep | src/common/storage/util.js:104-157 | one imperative pass of the do-while body produces the state of `DoStep` |
| CommitOrder.PlayRound | src/common/storage/util.js:99-157 | one round of the while body lengthens the result and leaves the rest of the walk's outcome unchanged |
| CommitOrder.WalkRounds | src/common/storage/util.js:92-158 | the while loop computes the walk's final result |
| CommitOrder.OrderCommits | src/common/storage/util.js:45-167 | the imperative `orderCommits` returns exactly what `Linearize` gives, error or history |
| CommitOrderProofs.OuterExtends | src/common/storage/util.js:98-158 | `result` is only pushed onto: the result between rounds is a prefix of the walk's final result |
| CommitOrderProofs.InnerExtends | src/common/storage/util.js:104-158 | the result inside a round is a prefix of the walk's final result |
| CommitOrderProofs.TakeParentsDrawn | src/common/storage/util.js:105-140 | the parent lookup keeps every commit the walk holds inside the input |
| CommitOrderProofs.DoStepDrawn | src/common/storage/util.js:104-157 | one pass keeps every commit the walk holds inside the input |
| CommitOrderProofs.OuterDrawn | src/common/storage/util.js:98-158 | the rest of the walk from between rounds emits only input commits |
| CommitOrderProofs.InnerDrawn | src/common/storage/util.js:104-158 | the rest of the walk from inside a round emits only input commits |
| CommitOrderProofs.LinearizeDrawsFromInput | src/common/storage/util.js:45-167 | every commit of the result, as written or corrected, is an input commit |
| CommitOrderProofs.TakeFresh | src/common/storage/util.js:66-74 | a pooled commit handed out by a parent id is neither a head nor emitted, and the rest of the pool stays fresh |
| CommitOrderProofs.SpliceFresh | src/common/storage/util.js:130-135 | splicing in a fresh commit keeps the heads free of repeats and out of the result |
| CommitOrderProofs.TwoTakesFresh | src/common/storage/util.js:117-118 | the two lookups of a merge's parents hand out two distinct fresh commits |
| CommitOrderProofs.MergeFresh | src/common/storage/util.js:109-137 | the merge case keeps the walk fresh and hands on a fresh commit |
| CommitOrderProofs.TakeParentsFresh | src/common/storage/util.js:105-140 | the parent lookup keeps the walk fresh, leaves `heads[i]` in place and hands on a fresh commit |
| CommitOrderProofs.EmitFresh | src/common/storage/util.js:142-144 | emitting a fresh continuation keeps the result free of repeats |
| CommitOrderProofs.ParkFresh | src/common/storage/util.js:141-149 | parking a fresh continuation as the head ends the round fresh |
| CommitOrderProofs.DrainFresh | src/common/storage/util.js:150-156 | removing a drained head ends the round fresh |
| CommitOrderProofs.DoStepFresh | src/common/storage/util.js:104-157 | one corrected pass keeps the walk fresh, and it is mid-round exactly when the loop continues |
| CommitOrderProofs.BeginFresh | src/common/storage/util.js:100-102 | emitting the head that opens a round keeps the result free of repeats |
| CommitOrderProofs.OuterFresh | src/common/storage/util.js:98-158 | from a fresh state between rounds, the corrected walk never emits a commit twice |
| CommitOrderProofs.InnerFresh | src/common/storage/util.js:104-158 | from a fresh state inside a round, the corrected walk never emits a commit twice |
| CommitOrderProofs.NoDupCounts | src/common/storage/util.js:160-166 | a sequence has no repeats exactly when every commit occurs in it at most once |
| CommitOrderProofs.UnparentedSubMultiset | src/common/storage/util.js:83-87 | the heads are a sub-multiset of the input |
| CommitOrderProofs.InitialFresh | src/common/storage/util.js:76-92 | for an input without repeated commits, the walk starts fresh |
| CommitOrderProofs.Rearranged | src/common/storage/util.js:160-166 | a repeat-free result of the input's length that draws only from a repeat-free input is a permutation of it |
| CommitOrderProofs.CorrectedIsPermutation | src/common/storage/util.js:45-167 | with line 145 corrected and for an input without repeated commits, the walk never emits a commit twice, and a successful result is a permutation of the input |
| CommitOrderExamples.ChainKeepsInputOrder | test/common/storage/util.spec.js:53-72 | the chain `#3 -> #2 -> #1`, with `#1` its own parent, comes back in input order, as written and corrected |
| CommitOrderExamples.LostParent | src/common/storage/util.js:141-157 | as written, the history a5 -> a4 -> a3 beside b1 loses a3 and ends in "Result not full: 3 , 4"; corrected, it comes back whole |
| CommitOrderExamples.RepeatedInput | src/common/storage/util.js:76-167 | one parentless commit given twice is pushed into `heads` twice (lines 83-87) and comes back twice from both walks, and the length check passes |
| CommitOrderExamples.RepeatedHead | src/common/storage/util.js:98-157 | as written, the lines s3 -> s2 and t1 -> t0 come back as s3, s2, t1, s2, which passes the length check with s2 twice and t0 missing; corrected, all four come back once |
| Dynamo.HashOf | src/server/storage/datastores/dynamoproject.js:141-152 | the `branchHash or ''` fallback: a missing branch reads as `''`; no contract of its own, its meaning is stated by SetBranch, SetBranchIsCompareAndSwap and SetBranchUndo |
| Dynamo.CheckHash | src/server/storage/datastores/dynamoproject.js:36-39 | a hash passes exactly when it is a string of the hash format; a non-string and an ill-formed string get their own errors |
| Dynamo.Load | src/server/storage/datastores/dynamoproject.js:33-63 | success exactly for a well-formed hash present in the table, with the stored object; a bad hash gives its format error; an absent one gives "object does not exist" |
| Dynamo.CheckObject | src/server/storage/datastores/dynamoproject.js:68-72 | an argument passes exactly when it is an object whose `_id` is a well-formed hash; null and non-objects give "object is not an object", and a bad `_id` gives its own error |
| Dynamo.Insert | src/server/storage/datastores/dynamoproject.js:65-127 | a failure leaves the table as it was; no stored entry ever changes; a fresh id is added; a taken id succeeds exactly when the stored object is equal, and otherwise gives "the two objects were NOT equal" |
| Dynamo.LoadChecksFirst | src/server/storage/datastores/dynamoproject.js:36-39 | a bad hash is rejected the same way whatever the table holds |
| Dynamo.InsertChecksFirst | src/server/storage/datastores/dynamoproject.js:68-72 | a bad argument is rejected the same way whatever the table holds, and the table is unchanged |
| Dynamo.InsertThenLoad | src/server/storage/datastores/dynamoproject.js:33-127 | after a successful insert, loading the object's id gives the object back |
| Dynamo.InsertFresh | src/server/storage/datastores/dynamoproject.js:74-123 | a valid object under a fresh id is stored and the insert succeeds |
| Dynamo.InsertExisting | src/server/storage/datastores/dynamoproject.js:84-120 | under a taken id the table never changes, and the insert succeeds exactly when the stored object equals the new one |
| Dynamo.InsertIdempotent | src/server/storage/datastores/dynamoproject.js:104-111 | repeating a successful insert succeeds and changes nothing |
| Dynamo.SetBranch | src/server/storage/datastores/dynamoproject.js:143-200 | failures are "branch hash mismatch" with the map unchanged; other branches are never touched; each of the four cases succeeds exactly under its own condition and then writes or deletes as the source does |
| Dynamo.SetBranchIsCompareAndSwap | src/server/storage/datastores/dynamoproject.js:143-200 | while no branch is stored as `''`, all four cases are one compare-and-swap that reads absence as `''`: success exactly when the branch reads `oldHash`, it then reads `newHash`, other branches read as before, and still no branch is stored as `''` |
| Dynamo.SetBranchUndo | src/server/storage/datastores/dynamoproject.js:143-200 | a successful swap from h1 to h2 can always be undone by a swap from h2 to h1 |
| Dynamo.DynamoProject.constructor | src/server/storage/datastores/dynamoproject.js:22-25 | a project over the given table and branch map |
| Dynamo.DynamoProject.LoadObject | src/server/storage/datastores/dynamoproject.js:33-63 | the method answers as `Load` does |
| Dynamo.DynamoProject.InsertObject | src/server/storage/datastores/dynamoproject.js:65-127 | the new table and the outcome are those of `Insert`, and the branch map is untouched |
| Dynamo.DynamoProject.GetBranches | src/server/storage/datastores/dynamoproject.js:129-134 | all branches with their hashes, none of them `''`; the empty map when there are none |
| Dynamo.DynamoProject.GetBranchHash | src/server/storage/datastores/dynamoproject.js:136-141 | the branch's hash, and `''` exactly when the branch does not exist |
| Dynamo.DynamoProject.SetBranchHash | src/server/storage/datastores/dynamoproject.js:143-200 | the new branch map and the outcome are those of `SetBranch`; no branch is ever stored as `''`; the object table is untouched |
| Neo4j.Opened | src/server/storage/datastores/neo4jadapter.js:38-58 | `openDatabase` counts one more user; afterwards a client exists exactly when one existed or the counter was 0; it keeps the invariant |
| Neo4j.Closed | src/server/storage/datastores/neo4jadapter.js:60-87 | `closeDatabase` counts one user fewer, never below 0; the client is gone exactly when the counter is 0; it keeps the invariant |
| Neo4j.ReplayConsistent | src/server/storage/datastores/neo4jadapter.js:38-87 | any sequence of opens and closes keeps "client present exactly while the counter is positive" |
| Neo4j.FromIdle | src/server/storage/datastores/neo4jadapter.js:24-87 | from counter 0 and no client, every call sequence ends in a consistent state |
| Neo4j.ReplayCounts | src/server/storage/datastores/neo4jadapter.js:38-67 | when no prefix closes more often than it opens, the counter is opens minus closes |
| Neo4j.OpenThenClose | src/server/storage/datastores/neo4jadapter.js:38-87 | an open followed by a close gives back the counter and connection state |
| Neo4j.Create | src/server/storage/datastores/neo4jadapter.js:137-165 | "Database is not open." without a client; "Project already exists" when the id is taken; otherwise the id is added |
| Neo4j.Find | src/server/storage/datastores/neo4jadapter.js:111-135 | "Database is not open." without a client; otherwise success exactly when the project exists, and "Project does not exist" when it does not |
| Neo4j.Delete | src/server/storage/datastores/neo4jadapter.js:89-109 | "Database is not open." without a client; otherwise the id is removed, and the result is `true` exactly when a project was there, a rejection with `false` when not |
| Neo4j.Rename | src/server/storage/datastores/neo4jadapter.js:167-204 | failures change nothing; "Database is not open.", then "Project does not exist" for a missing old id, then "Project already exists" for a taken new id; on success the old id is gone and the new one present |
| Neo4j.CreateThenOpen | src/server/storage/datastores/neo4jadapter.js:111-165 | a created project can be opened |
| Neo4j.CreateThenDelete | src/server/storage/datastores/neo4jadapter.js:89-165 | creating a new project and deleting it gives back the projects there were |
| Neo4j.DeleteThenOpen | src/server/storage/datastores/neo4jadapter.js:89-135 | a deleted project cannot be opened |
| Neo4j.RenameThenOpen | src/server/storage/datastores/neo4jadapter.js:111-204 | after a rename the project opens under the new id only, and renaming back restores the projects |
| Neo4j.Adapter.constructor | src/server/storage/datastores/neo4jadapter.js:24-31 | the adapter starts with counter 0 and no client |
| Neo4j.Adapter.OpenDatabase | src/server/storage/datastores/neo4jadapter.js:38-58 | the new state is `Opened` of the old one; a client is created only when there was none, and an existing one is reused |
| Neo4j.Adapter.CloseDatabase | src/server/storage/datastores/neo4jadapter.js:60-87 | the new state is `Closed` of the old one; the client is kept while the counter stays positive |
| Neo4j.Adapter.CreateProject | src/server/storage/datastores/neo4jadapter.js:137-165 | the new project set and the outcome are those of `Create` |
| Neo4j.Adapter.OpenProject | src/server/storage/datastores/neo4jadapter.js:111-135 | the outcome is that of `Find`, with nothing changed |
| Neo4j.Adapter.DeleteProject | src/server/storage/datastores/neo4jadapter.js:89-109 | the new project set and the outcome are those of `Delete` |
| Neo4j.Adapter.RenameProject | src/server/storage/datastores/neo4jadapter.js:167-204 | the new project set and the outcome are those of `Rename` |

## Left out

- Q promises, `nodeify` callbacks and the deferreds (`connectDeferred`, `disconnectDeferred`) are left out. Each operation returns its outcome directly, as a Result.
- Transport errors that a backend call reports through `err` or `.catch(deferred.reject)` are not modelled. Each backend call always answers.
- Interleaving between the separate `hget` and `hset`/`hdel` calls of `setBranchHash` is not modelled. The operations are sequential.
- Logging (`logger`, and `console.log` in `orderCommits` and `insertObject`) is not modelled, because it has no effect on results.
- The hash format (`REGEXP.HASH`) belongs to a module that is not part of this model. It is the class's `validHash` parameter.
- `CANON.stringify` equality is value equality of `Document`s. `JSON.stringify`/`JSON.parse` in the table are not modelled: the table stores the document itself.
- Dynamo: the table name `rawProjectId` (`dynamoproject.js:23-24`) and the key naming of the branch map are not modelled, because they only name backend storage.
- Dynamo: `closeProject` is not modelled, because it only resolves.
- Dynamo: `getCommits` (`dynamoproject.js:202-230`) is left out. It refers to an undefined `hash` and has no behaviour to model.
- Dynamo.DynamoProject.InsertObject: the conditional put is read the way the code reads it, as answering with the stored item when the id is taken. A real table signals a failed condition as an error instead, and that path of the backend is not modelled.
- Neo4j: the client library's connection object is an abstract `Client`, and its URL is not modelled.
- Neo4j: the project returned by `createProject`/`openProject` (`Neo4jProject`, not part of this model) is represented by its id.
- Neo4j: project nodes are a set of ids. The delete count is therefore 0 or 1: these operations never create two nodes with one id, and concurrent creates are not modelled.
- Neo4j: `renameProject`'s forced renames of branch and commit keys are not modelled. `CONSTANTS.BRANCHES` is undefined in this adapter, and the key renames have no meaning on project nodes. Rename is a move within the set of ids.
- Neo4j: the branch of `openDatabase` where the counter reaches 1 while a client exists is kept, exactly as in the source. The invariant shows it is unreachable.
- orderCommits: only `parents[0]` and `parents[1]` of a merge commit are read, as in the source. Octopus merges are not handled.
- orderCommits: the time comparison at line 113 compares `.time` of id strings, which is always false. The model therefore always makes `parents[0]` the new head and lets `parents[1]` continue.
- orderCommits: JavaScript's coercion of property keys is not modelled. An undefined `parents[0]` looks up nothing, whereas in the source it would find a commit whose `_id` is the string `undefined`.
- StorageUtil: the project-id helpers take an optional string. A truthy argument that is not a string, which makes the source throw a TypeError at `.replace`, `.indexOf` or `.substring`, is not modelled.
- orderCommits: `time` is an integer. Floating-point times are not modelled.
- CommitOrder.SortByTime: ties are kept in input order, as a stable sort does. The source's comparator leaves their order to the engine, and the properties proved (non-increasing time, same multiset) do not depend on it.
- CommitOrder.Linearize: for the code as written, only the length of a successful result and that it draws from the input are proved. The source promises no more, and the findings below show a permutation does not hold.
- CommitOrderProofs.CorrectedIsPermutation: it requires that the input holds no commit twice. A repeated commit that no commit names as a parent is a head twice (lines 83-87) and comes back twice, as RepeatedInput proves for [X, X]. A repeated commit that some commit names is filed once in `commitsMap` (line 77) and comes back at most once. Either way, without this requirement a result cannot be both repeat-free and a rearrangement of the input.

## Findings

| source | as written | input that shows it | evidently intended | confidence | as-written member | corrected member |
|---|---|---|---|---|---|---|
| src/common/storage/util.js:145 | After emitting `curr`, line 145 takes `heads[i].parents[0]` out of `commitsMap`. The next pass resets `curr` at line 105 and looks the same parent up again, finds it gone, and drops the head, so that parent is never emitted. | a5 (time 5, parent a4), a4 (4, a3), a3 (3, none), b1 (1, none): `orderCommits` throws "Result not full: 3 , 4" | the walk continues with that parent, and every commit is emitted once. Proved: for an input without repeated commits the corrected walk emits no commit twice, and a successful call returns a permutation of the input. That the corrected walk succeeds is proved only on this input (LostParent) | not executed | CommitOrderExamples.LostParent | CommitOrder.LinearizeCorrected, with CommitOrderProofs.CorrectedIsPermutation |
| src/common/storage/util.js:141-157 | After an emitted commit whose parent lookup at line 145 finds nothing, the do-while ends but the emitted commit stays in `heads`. A later round emits it again at line 102, and the length check can pass with a commit repeated and another missing. | s3 (3, s2), s2 (2, none), t1 (1, t0), t0 (0, none): `orderCommits` returns s3, s2, t1, s2 | each commit is emitted once: a head that has been emitted is not emitted again. Proved for the corrected walk on every input without repeated commits | not executed | CommitOrderExamples.RepeatedHead | CommitOrder.LinearizeCorrected, with CommitOrderProofs.CorrectedIsPermutation |
