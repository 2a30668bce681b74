# A verified model of psy-node's planners and workspace protocols

psy-node is the node of a proving network, together with the scripts that run a local network and that move
commits between the repositories of its workspace. This project models the parts where a mistake is easy to
make and hard to see, as Dafny 4 modules, and proves what those parts promise for every input, every run and
every interleaving. `dafny verify dfyconfig.toml` checks everything.

What is modelled, by part of the system:

- **Aggregation planning.** Leaves of a Merkle tree are combined pairwise at their nearest common ancestors.
  `NodeKeys` has the node arithmetic, `NcaPlanner` the divide-and-conquer recursion in its parallel and its
  sequential form, `NcaRecursion` what it emits, `NcaGroups` the three ways of grouping the emitted work,
  `NcaSchedules`, `NcaChains` and `NcaChecker` what the groups are good for.
- **Merkle roots.** `MerkleLeaves` compares five ways of hashing any number of leaves with one reference tree;
  the hash function is arbitrary.
- **Proposer rotation.** `Rotation` has the swap-or-not shuffle over field elements, with its hash as a parameter.
- **The workspace command.** `DependencyOrder` is the gitlink order; `Commits` are content-addressed values, so
  ancestry is part of the value. `Push`, `PushOrder` and `PushResume` treat publication as a state machine
  whose steps interleave with other writers and in which any command may fail. `Prepare` plans the preparation
  of repositories and `PrepareApply` carries it out in place, with failures at every point of a turn. `Squash`
  is the integration of topic branches, `SquashLinks` where their links end, `SquashPush` the publication of the
  result, again among other writers; `PinGuard` is the guard for Cargo pins.
- **The local network.** `RestartPolicy` and `Supervisor` decide restarts, `SupervisedService` is
  the life of a service whose processes exit in any order, `CpuSets` and `CpuPartition` divide
  CPUs, `UserIds` maps registrations to user ids, `WorkerPool` is the bounded concurrent map.
- **Trust setup objects.** `ChunkedObjects` splits files and puts them together again on two sides,
  `ManifestLast` is the publication protocol with the manifest written last.

`Wrappers`, `Powers`, `Decimals` and `Folds` hold what several of these share.

The library file `merkle_node_key.rs` and the two benchmark files hold the same recursion and grouping code
several times; the table cites one copy of each. Sequential code that updates a vector, an array, an object or a
map in place is an imperative method here; code that only computes is a function.

## What the proofs found

Five promises do not hold as written. Each has a concrete counterexample and an exact condition.

- A push need not start at the expected commit (`PushOrder.RaceMovesTheStart`). On every run an update starts there
  if and only if no other writer moved its branch between the last look at it and `git push`
  (`PushOrder.UpdateStartsAtExpectedExactly`); in any case it starts at a descendant (`Push.PushIsSafe`).
- The parallel grouping loses aggregations when its caller names a level where two leaves part below their top
  (`NcaSchedules.InnerLevelLosesWork`), and exactly then (`NcaSchedules.BreadthFirstIsExact`).
- The repository's checker for groups accepts every breadth-first grouping but refuses some groupings by height
  (`NcaChecker.ShortSideIsRefused`). It accepts them exactly when, wherever leaves lie on both sides of a node, the
  longest chains of such nodes on its two sides are equal or one side has none
  (`NcaChecker.HeightGroupsPassChecker`).
- Integration leaves an unchanged gitlink alone when its child stays at its topic head, even where the target base
  pins something older (`SquashLinks.UnmovedChildIsLeftBehind`). A child stays when there is nothing to squash, or when its topic
  is the very commit the squash makes, and the children it pins at their topic heads stay too
  (`SquashLinks.KeepsTipExactly`). The second case compares with a commit that carries the time and author of the
  squash, so what a caller can decide beforehand is in practice whether topic and base are the same commit. Which
  links end at their child's integration commit follows (`SquashLinks.TopicLinksFollowIntegration`).
- A supervised service can end up with several processes. A start that cannot be logged is taken for a failed spawn
  and tried again, while its process stays under supervision. One exit then leaves two processes whose records go
  separate ways (`Supervisor.TwoProcessesTwoRecords`), and a service can be given up with five processes running
  (`Supervisor.GivenUpWithFiveLeft`). What an exit leaves is what it reports if and only if every start was logged, and
  it is two or more exactly when a start that was not logged is followed by another start
  (`Supervisor.LeftIsReportedExactly`). The limits on restarts hold along every line of descent, and for the service as
  a whole when every start is logged (`SupervisedService.ServiceIsBounded`).

Some limits are stated the same way. The order check of `applyPreparation` speaks of an earlier repository but lets a
repository name itself (`Prepare.SelfLinkPassesOrderChecks`), and nothing else (`Prepare.OrderChecksMissSelfLinks`).
Planning never returns such a plan, since it is a cycle, and scripts/workspace.ts:932, the one caller outside the
tests, applies only what planning returned; on a plan made by hand exactly the links to other repositories would name
their child's final commit (`PrepareApply.Workspace.ApplyPreparation`). A download that was refused succeeds the next
time exactly when every wrong part could be deleted (`ChunkedObjects.PackAndDownload`). A CPU set prints and reads back exactly when no CPU is above 4095
(`CpuSets.PrintedSetReadsBack`). The concurrent map returns every result exactly when at least one worker was asked
for or there was nothing to do (`WorkerPool.PoolIsCorrect`). A preparation that fails after `git commit` leaves that
repository one commit further without reporting it as retained (`PrepareApply.Workspace.ApplyPreparation`). The pin
guard by itself looks only at the last of several pins of one name (`PinGuard.GuardIsExact`); the lists `merge` makes
give every pin a name of its own, so there it misses none (`PinGuard.GuardManifests`).

## Model

| member | source | states |
|---|---|---|
| `NodeKeys.UnderIsInterval` | parth_core/src/data/hash/merkle_node_key.rs:197-217 | the nodes of a level below a node are one contiguous range of indices |
| `NodeKeys.SplitBySide` | parth_core/src/data/hash/merkle_node_key.rs:197-217 | below an inner node, a node lies on the left exactly when its index is below the first leaf of the right child |
| `NodeKeys.NthAncestorIsAbove` | parth_core/src/data/hash/merkle_node_key.rs:237-252 | climbing by any number of levels reaches the node above on that level, the root beyond the top |
| `NodeKeys.NcaIsNearest` | parth_core/src/data/hash/merkle_node_key.rs:265-274 | any two nodes, on any levels, have their climbing result as a common ancestor below all others |
| `NodeKeys.NearestIsUnique` | parth_core/src/data/hash/merkle_node_key.rs:265-274 | there is only one nearest common ancestor, so the specification names one node |
| `NodeKeys.FindNearestCommonAncestor` | parth_core/src/data/hash/merkle_node_key.rs:265-274 | the loop ends and returns the nearest common ancestor |
| `NodeKeys.NcaAcrossSides` | parth_core/src/data/hash/merkle_node_key.rs:265-274 | nodes on the two sides of a node have that node as their nearest common ancestor |
| `NcaPlanner.SplitKeepsValid` | parth_core/benches/nca_3.rs:30-33 | the partition point divides sorted leaves into those of the left and those of the right subtree |
| `NcaPlanner.BuildV1` | parth_core/src/data/hash/merkle_node_key.rs:582-628 | the sequential recursion appends to its vector exactly what the parallel one returns, and passes up the same key |
| `NcaPlanner.CombineInto` | parth_core/src/data/hash/merkle_node_key.rs:609-627 | the combine phase pushes one aggregation when both sides have a key and nothing otherwise |
| `NcaPlanner.TreeIsWellPlaced` | parth_core/benches/nca_3.rs:18-56 | the reference tree holds the leaves in order, each inner node's sides in the two child subtrees of its key |
| `NcaPlanner.ParIsPostOrder` | parth_core/benches/nca_3.rs:18-56 | the keys computed by climbing are the subtree roots of the reference, emitted in post-order |
| `NcaPlanner.NcasAreDistinct` | parth_core/benches/nca_3.rs:18-56 | no two aggregations have one key |
| `NcaRecursion.RecursionIsExact` | parth_core/benches/nca_3.rs:18-56 | for any n leaves: n-1 aggregations with distinct keys, dependencies first; a node is aggregated exactly when it has leaves on both sides, from the nearest common ancestors of the two groups; the last key is that of all leaves |
| `NcaGroups.CollectChildren` | parth_core/src/data/hash/merkle_node_key.rs:668-685 | one search step finds the inner children of a level in order and says whether there were any |
| `NcaGroups.SearchLevels` | parth_core/src/data/hash/merkle_node_key.rs:659-691 | the search from the last aggregation returns the levels of the tree, deepest first |
| `NcaGroups.GroupsV1` | parth_core/src/data/hash/merkle_node_key.rs:632-692 | the groups are the levels of the tree of the leaves; fewer than two leaves give none |
| `NcaGroups.GroupsRayon` | parth_core/benches/nca_3.rs:58-115 | the same with the caller's leaf level as the level at which the search stops |
| `NcaGroups.BuildWithHeights` | parth_core/src/data/hash/merkle_node_key.rs:918-976 | the recursion passes up key and height of the reference tree and emits every inner node with its height |
| `NcaGroups.FillBuckets` | parth_core/src/data/hash/merkle_node_key.rs:1012-1020 | bucket b holds, in order, the entries of level b+1 |
| `NcaGroups.GroupsByHeight` | parth_core/src/data/hash/merkle_node_key.rs:981-1025 | the groups are the inner nodes by height, none of them dropped as empty |
| `NcaSchedules.BreadthFirstIsExact` | parth_core/benches/nca_3.rs:58-115 | the groups hold every aggregation exactly once if and only if no two leaves part on the named level below their top; then there are as many groups as the tree is high and every inner part is in the group directly before |
| `NcaSchedules.LeafLevelIsSafe` | parth_core/src/data/hash/merkle_node_key.rs:668-685 | naming the leaves' own level, or a deeper one, always meets that condition |
| `NcaSchedules.InnerLevelLosesWork` | parth_core/benches/nca_3.rs:92-103 | three leaves and an inner level for which aggregations are missing |
| `NcaSchedules.HeightBucketsAreExact` | parth_core/src/data/hash/merkle_node_key.rs:981-1025 | the height groups hold every aggregation exactly once, no group is empty, every inner part is in an earlier one, and they are as many as the breadth-first groups |
| `NcaSchedules.CheckerAccepts` | parth_core/src/data/hash/merkle_node_key.rs:834-866 | the checker accepts every breadth-first grouping |
| `NcaChains.ChainIsHeight` | parth_core/src/data/hash/merkle_node_key.rs:958-959 | the height of the plan is the longest chain of nodes with leaves on both sides |
| `NcaChecker.HeightGroupsPassChecker` | parth_core/src/data/hash/merkle_node_key.rs:834-866 | the checker accepts a grouping by height exactly when the chains on the two sides of every splitting node are equal or one side has none |
| `NcaChecker.ShortSideIsRefused` | parth_core/src/data/hash/merkle_node_key.rs:1027-1041 | five leaves whose grouping by height the checker refuses |
| `MerkleLeaves.Log2CeilBounds` | parth_core/src/utils/math.rs:20-22 | the rounded-up logarithm is the least exponent whose power has room |
| `MerkleLeaves.CollapseKeepsRoot` | parth_core/src/crypto/hash/traits/merkle.rs:34-50 | hashing one full level up leaves the root of the tree alone |
| `MerkleLeaves.NextIsCollapse` | parth_crypto/benches/leaves_v2.rs:144-193 | padding one odd node with the level's zero hash is the same as padding the whole level |
| `MerkleLeaves.NextKeepsRoot` | parth_crypto/benches/leaves_v2.rs:144-193 | so every level of the in-place forms stands for the same padded root |
| `MerkleLeaves.GenerateZeroHashes` | parth_core/src/crypto/hash/merkle_proof.rs:24-31 | entry k of the table is the root of an empty subtree of height k |
| `MerkleLeaves.GetZeroHash` | parth_core/src/crypto/hash/merkle_proof.rs:45-54 | the same for every level, also beyond the table |
| `MerkleLeaves.ComputeRootFromLeaves` | parth_core/src/crypto/hash/traits/merkle.rs:20-54 | the root of the full tree for a power of two of leaves; an error for none and for every other number |
| `MerkleLeaves.NaivePaddedRoot` | parth_common/examples/hash_merkle_tree_from_leaves.rs:5-36 | the root of the padded tree, and its own comparison with the library never fails |
| `MerkleLeaves.CollapseLevel` | parth_crypto/benches/leaves_v2.rs:144-193 | one level hashed in place: the front of the array is the next level |
| `MerkleLeaves.CollapseLevelByStride` | parth_crypto/benches/leaves_v2.rs:96-135 | the same with a stride of two and a write cursor that never overtakes the reads |
| `MerkleLeaves.FromLeaves1` | parth_crypto/benches/leaves_v2.rs:48-87 | the padded root for any number of leaves, an error for none |
| `MerkleLeaves.FromLeaves2` | parth_crypto/benches/leaves_v2.rs:96-135 | the padded root for any number of leaves, an error for none |
| `MerkleLeaves.FromLeaves3` | parth_crypto/benches/leaves_v2.rs:144-193 | the padded root for any number of leaves, an error for none |
| `Rotation.RoundIsInvolution` | parth_common/src/realm_rotation.rs:98-113 | for any pivot and any source bits a round undoes itself |
| `Rotation.RoundSwapsMirrors` | parth_common/src/realm_rotation.rs:98-113 | two validators whose positions add up to the pivot around the circle change places exactly when the bit of the later one is set |
| `Rotation.UnshuffleUndoes` | parth_common/src/realm_rotation.rs:88-114 | running the rounds backwards undoes any number of them |
| `Rotation.ShuffleIsPermutation` | parth_common/src/realm_rotation.rs:88-114 | for any schedule the rounds permute the validators: no index is reached twice and every one is reached |
| `Rotation.ClearBitsMoveNobody` | parth_common/src/realm_rotation.rs:88-114 | a schedule without set bits leaves every validator where it is |
| `Rotation.AnchorPrecedesEpoch` | parth_common/src/realm_rotation.rs:120-131 | for every 64-bit checkpoint the anchor is computed without overflow, ends the previous epoch and lies before every checkpoint of its own, except that epoch 0 uses checkpoint 0 |
| `Rotation.SeedInputIsInjective` | parth_common/src/realm_rotation.rs:68-85 | different realms, 64-bit epochs or canonical seeds are never hashed as the same field elements |
| `Rotation.ShuffleElects` | parth_common/src/realm_rotation.rs:70-116 | the position reached from 0 through ninety rounds, each with the partner and the decision read off the two domain-separated hashes of the epoch seed, is the permutation of 0 |
| `Rotation.ProposerSubId` | parth_common/src/realm_rotation.rs:60-117 | no proposer exactly when the epoch length is 0 or there are no validators; refused exactly when a limb of the anchor is no field element; otherwise the validator so elected, by an in-place loop |
| `DependencyOrder.Ordered` | scripts/workspace.ts:547-560 | the loop computes the order specified, or reports a cycle |
| `DependencyOrder.OrderedByPending` | scripts/workspace.ts:673-680 | the loop of planning, which asks that no dependency is pending, computes the same order |
| `DependencyOrder.OrderIsExact` | scripts/workspace.ts:547-560 | the order is a permutation with every included child before its parents; it fails exactly when the included repositories link in a cycle |
| `DependencyOrder.OrderIsGreedy` | scripts/workspace.ts:547-560 | of these orders it is the one nearest to the given list: a plan stands behind one listed after it only while something it needs is still to come |
| `Commits.AncestorTransitive` | scripts/workspace.ts:292-292 | ancestry of commits is transitive |
| `Push.NextKeepsInvariant` | scripts/workspace.ts:314-348 | every step of the run and of other writers, and every failure, keeps the invariant |
| `Push.PushIsSafe` | scripts/workspace.ts:268-349 | at every point of every run: what was published is on its live branch, with all cohort pins reachable on the children's live branches, every external pin present in the expected commit with the same path, revision and URL, and the checks of its own commit passed; every write carries one plan's branch forward to its reviewed commit, in plan order, once, from a descendant of the expected commit; without `--push` nothing is published |
| `Push.ExternalLooksAtOwnBranch` | scripts/workspace.ts:272-279 | passing a plan's first external link takes its own branch at the expected or the reviewed commit |
| `Push.ChildIsAtReviewed` | scripts/workspace.ts:286-290 | passing a link at the parent's turn takes a selected child's branch at exactly its reviewed commit |
| `PushOrder.OrderServesPush` | scripts/workspace.ts:300-313 | the plans come in an order with selected children first, none lost |
| `PushOrder.ChildrenLandFirst` | scripts/workspace.ts:341-348 | when a parent is published each selected child's reviewed commit is on its live branch |
| `PushOrder.UpdateStartsAtExpectedExactly` | scripts/workspace.ts:343-346 | on every run, at every point, an update starts at the expected commit if and only if no other writer moved its branch after the last look and before the push |
| `PushOrder.UndisturbedUpdates` | scripts/workspace.ts:343-346 | so with no other writer on the selected branches every update starts there |
| `PushOrder.RaceMovesTheStart` | scripts/workspace.ts:343-346 | a whole run in which a write starts elsewhere |
| `PushResume.PinStaysGood` | scripts/workspace.ts:323-342 | a pin accepted before the first write is accepted again when its parent's turn comes |
| `PushResume.UndisturbedRunCompletes` | scripts/workspace.ts:295-349 | an undisturbed run with reviewed pairs completes exactly when every selected branch is at its expected or reviewed commit, every plan passes its own checks, external links are those of the expected commit, and cohort pins are reachable from the reviewed commit of a selected child or the live branch of any other; it then leaves every selected branch at its reviewed commit, the rest alone, and writes only what was missing |
| `PushResume.UndisturbedPreview` | scripts/workspace.ts:314-341 | without `--push` the same condition decides and nothing is written |
| `PushResume.UndisturbedRunWithoutPairs` | scripts/workspace.ts:314-349 | without pairs a run completes exactly when every selected branch exists and the condition holds with the live commits as the expected ones, and leaves the same remotes |
| `PushResume.RefusedRunWritesNothing` | scripts/workspace.ts:314-348 | an undisturbed run from remotes that do not pass the preflight never writes anything |
| `PushResume.RerunCompletes` | scripts/workspace.ts:295-349 | a run stopped after any number of steps and started again with the same pairs ends as the uninterrupted one, completed or refused, with the same remotes, and repeats no write |
| `Prepare.BuildPreparePlan` | scripts/workspace.ts:659-684 | it fails exactly on a cycle of gitlinks and Cargo dependencies, and otherwise orders the repositories |
| `Prepare.PlansPassOrderChecks` | scripts/workspace-operations.ts:1280-1297 | every plan so built passes the checks of application, with each dependency strictly earlier |
| `Prepare.OrderChecksExactly` | scripts/workspace-operations.ts:1278-1297 | the checks on the order pass exactly when there is a repository, none is listed twice, every link leads to one listed no later, and a Cargo pin has psy-node listed before |
| `Prepare.OrderChecksMissSelfLinks` | scripts/workspace-operations.ts:1290-1296 | in a plan that passes the checks every dependency is strictly earlier if and only if no gitlink maps to its own repository |
| `Prepare.SelfLinkPassesOrderChecks` | scripts/workspace-operations.ts:1293-1294 | a plan with a link to itself passes the checks although it is a cycle |
| `Prepare.NoCommitPinsItself` | scripts/workspace-operations.ts:1307-1315 | no commit pins itself, so such a link can never name its child's final commit |
| `PrepareApply.Workspace.Recheck` | scripts/workspace-operations.ts:1203-1233 | passes exactly when head, index, gitlinks, branch, owned files and nested checkouts are as frozen and the nested ones clean, written out |
| `PrepareApply.Workspace.RecheckAll` | scripts/workspace-operations.ts:1302-1302 | the first recheck passes exactly when all repositories are as frozen |
| `PrepareApply.PlanMoves` | scripts/workspace-operations.ts:1307-1315 | the moves are exactly the links that do not pin their child's commit yet; refused exactly when one would move backward or aside; staged, every planned link names its child's commit, and after any number of the moves each is where it was or there |
| `PrepareApply.Workspace.Stage` | scripts/workspace-operations.ts:1328-1336 | staging changes one repository's index, and its nested checkouts, by exactly the moves |
| `PrepareApply.Workspace.Commit` | scripts/workspace-operations.ts:1370-1371 | a commit of what is staged on top of the old head; nothing else moves |
| `PrepareApply.PreparedNamesChildren` | scripts/workspace-operations.ts:1307-1376 | in a prepared repository exactly the links to other repositories name their child's commit |
| `PrepareApply.TurnSettles` | scripts/workspace-operations.ts:1328-1376 | a turn that gets through makes a commit, on the old head and with what the owned files contribute, exactly when they changed or a link moves; other gitlinks stay, moved nested checkouts are at the pinned commit on no branch, the others as they were |
| `PrepareApply.Workspace.PrepareOne` | scripts/workspace-operations.ts:1305-1376 | a turn touches only its repository; it advances the progress invariant and settles the repository; a failing one leaves it untouched, with some or all moves staged, or one commit further, prepared and settled, according to where a command failed, and untouched when a link may not move |
| `PrepareApply.Workspace.CommitInOrder` | scripts/workspace-operations.ts:1298-1380 | the loop ends with all repositories prepared and settled, or at the first whose turn fails, with the earlier ones prepared and settled and the later ones untouched |
| `PrepareApply.Workspace.ApplyPreparation` | scripts/workspace-operations.ts:1277-1383 | nothing is touched unless order and recheck pass; on success no command failed, every repository is prepared and accounted for once, has a commit exactly when its owned files changed or one of its links moves, and exactly the links to other repositories name their child's final commit; on failure that holds up to some repository, which is as its failing turn left it, everything after it is untouched, and exactly the earlier ones with a commit are reported as retained |
| `Squash.OrderServesMerge` | scripts/workspace.ts:772-772 | the order of integration holds the same plans, with linked children first |
| `Squash.RewriteLinks` | scripts/workspace.ts:819-838 | the specified rewriting on top of git's merge; a child's integration is never missing, and exactly the conflicts at rewritten paths are resolved |
| `Squash.LinksIntegrated` | scripts/workspace.ts:817-843 | a rewritten link pins the child's integration commit, every other link keeps git's merge result |
| `Squash.LinksIntegratedExactly` | scripts/workspace.ts:817-843 | in terms of the trees: a link to an integrated repository pins the child's integration commit exactly when it differs from the merge ancestor's entry or names a topic head that is not what the child ends at, and every other link keeps git's merge result |
| `Squash.IntegrateOne` | scripts/workspace.ts:817-843 | a turn succeeds exactly when no command fails, every unmerged entry is a gitlink that is rewritten, and the merge did not fail without a conflict; the two remaining refusals never happen |
| `Squash.Integrate` | scripts/workspace.ts:817-843 | the loop succeeds exactly when every turn does, and then returns every repository's integration commit |
| `Squash.ConflictsFollowIntegration` | scripts/workspace.ts:833-838 | every conflict that is accepted ends at the integration commit of an earlier repository that the link maps to |
| `SquashLinks.KeepsTipExactly` | scripts/workspace.ts:817-843 | a repository's integration commit is its topic head exactly when there is nothing to squash, or the topic is the very commit the squash makes, and the same holds of every child it pins at its topic head |
| `SquashLinks.TopicLinksFollowIntegration` | scripts/workspace.ts:773-843 | in the map returned every changed link, and every link naming its child's topic head, ends at the child's integration commit if and only if it was changed, or the child does not stay at its topic head, or the target base pins that head already |
| `SquashLinks.UnmovedChildIsLeftBehind` | scripts/workspace.ts:827-827 | an integration nothing stops after which a link naming its child's topic head pins an older commit |
| `SquashPush.PublicationIsSafe` | scripts/workspace.ts:844-854 | in every state of every run, whatever other writers do and wherever it stops: a prefix of the order is published and on its live base branches; every write is one fast-forward per repository, in order, to its integration commit from the frozen commit or past it; without `--push` nothing is written |
| `SquashPush.WriteStartsAtFrozenExactly` | scripts/workspace.ts:848-853 | on every run a write starts at the frozen commit if and only if no other writer moved its branch between the look at it and the push |
| `SquashPush.PublishedLinksAreReachable` | scripts/workspace.ts:844-854 | at every point of every run each rewritten link of a published repository pins its child's integration commit, which is on the child's live base branch |
| `SquashPush.PublishesIsWellFormed` | scripts/workspace.ts:762-842 | what `merge` publishes always extends the remote commit it froze, so the push is a fast-forward unless the branch moved |
| `SquashPush.AloneAllOrNothing` | scripts/workspace.ts:844-854 | without other writers or failures everything is published exactly when no base branch moved since the start, and otherwise nothing is written |
| `PinGuard.CrateNamesDiffer` | scripts/workspace.ts:802-802 | pins of different tables or keys have different names |
| `PinGuard.PlainKeysAreBare` | scripts/workspace-operations.ts:176-195 | a key can be listed exactly when it is a nonempty run of letters, digits, underscores and hyphens |
| `PinGuard.PinsFromManifest` | scripts/workspace-operations.ts:176-195 | it fails exactly when a psy-node pin has no full revision or an unusual key, and otherwise lists every such pin of the four tables, each under a name of its own |
| `PinGuard.GuardSnapshot` | scripts/workspace-operations.ts:1053-1065 | one consumer is accepted exactly when every pin that the base has at the same revision is not topic-only and every other pin is on the origin; the report is exactly the former |
| `PinGuard.GuardSquashPins` | scripts/workspace-operations.ts:1036-1068 | accepted exactly when each consumer has a base snapshot, the first of its name, against which the last pin of every name stands |
| `PinGuard.GuardIsExact` | scripts/workspace-operations.ts:1053-1065 | an accepted list holds a commit the squash removes exactly when a pin hidden by a later one of its name does |
| `PinGuard.AcceptedPinsSurvive` | scripts/workspace-operations.ts:1036-1068 | of every manifest whose list is accepted no psy-node pin names a node commit that the squash removes |
| `PinGuard.AcceptedStands` | scripts/workspace-operations.ts:1036-1068 | every psy-node pin of an accepted manifest is an ancestor of the frozen remote base, or stands in the same place of the base manifest and is not on the topic |
| `PinGuard.StandingIsAccepted` | scripts/workspace-operations.ts:1036-1068 | conversely a manifest all of whose pins stand so is accepted, if the guard knows the frozen remote base |
| `PinGuard.GuardManifests` | scripts/workspace.ts:794-813 | listing and guard together let the squash go on exactly when every pin of source and base can be listed and every psy-node pin of every consumer stands so |
| `RestartPolicy.ClassifiedExactly` | dev/locSetupPolicy.ts:620-634 | when each cause is given: a failed spawn before a marker, that before a restart asked for by a dependency, that before a signal, and otherwise an exit, with code 0 if none is known |
| `RestartPolicy.SignatureInjective` | dev/locSetupPolicy.ts:636-643 | two failures have one signature exactly when they are the same cause |
| `RestartPolicy.DelayBounds` | dev/locSetupPolicy.ts:645-647 | the delay doubles from one second and is capped at thirty from the sixth attempt on |
| `RestartPolicy.RecordIsTrailingBlock` | dev/locSetupPolicy.ts:653-683 | along every run the record is the trailing block of equal failures since the last stable run, dependency restarts ignored |
| `RestartPolicy.RunsAreBounded` | dev/locSetupPolicy.ts:653-683 | along every run exactly the fifth equal failure in a row, since the last exit after a healthy minute, is refused; first cause and time since then are kept; delays double with the restarts since then, from one second to thirty |
| `Supervisor.SpawnFailureStep` | dev/locSetupV4.ts:6170-6189 | a failed spawn is refused exactly at the limit and otherwise uses up one of the allowed repeats |
| `Supervisor.SpawnFromTemplate` | dev/locSetupV4.ts:6193-6216 | the new process inherits count and record; it counts as healthy only without an initialization hint |
| `Supervisor.HandleSupervisedExit` | dev/locSetupV4.ts:6063-6191 | the exits it plans, the way it ends and the processes it leaves are those specified from what the process left behind and the attempts around it; its count and record follow the policy through all of them, and every process left begins with those of the plan it was started for |
| `Supervisor.HandledExits` | dev/locSetupV4.ts:6086-6188 | the first exit planned is the one handed in with its cause, health and clock, the others are failed spawns, each but the last answered with a restart that was taken for a failed spawn; the limit is reported exactly when the last plan is the limit, a new process exactly when the last spawn succeeds and is logged |
| `Supervisor.RetriesEnd` | dev/locSetupV4.ts:6170-6189 | whatever the spawns do, at most five plans follow for failed spawns, and if every spawn fails or goes unlogged and nothing stops it the supervisor gives up |
| `Supervisor.EveryStartIsLeft` | dev/locSetupV4.ts:6147-6189 | an exit leaves one process for every attempt that started one, logged or not, in order, and no other |
| `Supervisor.LeftIsReportedExactly` | dev/locSetupV4.ts:6147-6189 | an exit leaves just the process it reports if and only if no start went unlogged; it leaves two or more if and only if such a start was followed by another |
| `Supervisor.GivenUpWithFiveLeft` | dev/locSetupV4.ts:6147-6189 | when every restart of a failure is started but cannot be logged the supervisor gives up with five processes left |
| `Supervisor.TwoProcessesTwoRecords` | dev/locSetupV4.ts:6147-6189 | one exit that leaves two processes, and a failure of the first that its own record counts as a repeat and a single record would not |
| `SupervisedService.Supervise` | dev/locSetupV4.ts:6014-6025 | whichever process exits in whatever order, the processes left and their records are those specified from the exits |
| `SupervisedService.ServiceIsBounded` | dev/locSetupV4.ts:6014-6191 | over the whole life of a service the exits planned along every line of descent are one run of the policy, bounded by it, given up exactly at the limit; when no start goes unlogged there is never more than one process and all exits are one run |
| `CpuSets.FormatCpuSet` | dev/locSetupPolicy.ts:315-332 | the canonical text of the set, an error for the empty one |
| `CpuSets.ParseCpuSet` | dev/locSetupPolicy.ts:441-462 | the union of all segments, an error if any is malformed, reversed or out of range |
| `CpuSets.ParseExactly` | dev/locSetupPolicy.ts:441-462 | a comma-separated list is read exactly when every segment, spaces around it aside, is a number or an upward range of numbers up to 4095, and as the CPUs of those ranges |
| `CpuSets.EveryTextSplits` | dev/locSetupPolicy.ts:443-443 | every text is such a list |
| `CpuSets.PrintedSetReadsBack` | dev/locSetupPolicy.ts:315-332 | the text is sorted ranges with gaps between them that cover the set, and reads back as the set exactly when no CPU is above 4095 |
| `CpuPartition.PartitionIsSound` | dev/locSetupPolicy.ts:334-387 | a returned partition divides all CPUs into two nonempty sets of whole cores, honours the overrides, gives the number of cores on each side, and prints sets that read back exactly when no CPU is above 4095 |
| `CpuPartition.PartitionIsComplete` | dev/locSetupPolicy.ts:334-387 | with two or more cores it succeeds exactly when some two sides share out the cores as the overrides say; with fewer it fails exactly when an override is given and otherwise gives no partition |
| `CpuPartition.DefaultPartitionExists` | dev/locSetupPolicy.ts:339-368 | without overrides it never fails and divides exactly when there are two cores; Scylla gets the first four of sixteen or more, two of eight or more, one otherwise |
| `UserIds.ReverseIsInvolution` | dev/locSetupV4.ts:1329-1333 | reversing the bits of any width twice gives the number back |
| `UserIds.UserIdFromRegistrationId` | dev/locSetupV4.ts:1322-1335 | the loop computes the id, with an error outside 32 bits |
| `UserIds.UserIdRoundTrip` | dev/locSetupV4.ts:1322-1335 | every registration comes back from its user id |
| `UserIds.RegistrationRoundTrip` | dev/locSetupV4.ts:1322-1335 | every 32-bit number is the user id of a registration |
| `UserIds.BuildIndices` | dev/jtmbTest.ts:186-186 | the map holds exactly the ids of the first registrations, each with its own, nothing overwritten |
| `WorkerPool.PoolIsCorrect` | dev/jtmbTest.ts:95-109 | under every interleaving: indices start once each in order; no more items are in flight than asked for nor than there are, with exactly as many workers as that allows; it waits exactly while a worker is active and returns exactly when all finished; a throw is the failure of the first rejected worker; a return carries every result exactly when one worker was asked for or there was nothing to do |
| `WorkerPool.EveryRunEnds` | dev/jtmbTest.ts:95-108 | every step of a worker uses up one of finitely many, and the pool does not report before the last |
| `ChunkedObjects.SizesAgree` | scripts/trust-setup.py:146-147 | both sides expect the size a part has, and no part is empty |
| `ChunkedObjects.PaddedLength` | scripts/trust-setup.py:85-86 | part numbers have two digits up to 99 and as many as needed from there on |
| `ChunkedObjects.PartNamesDiffer` | scripts/trust-setup.py:85-86 | parts of one object never share a name, also beyond ninety-nine |
| `ChunkedObjects.CeilingIsExact` | dev/locSetupV4.ts:2713-2719 | for every size and part size JavaScript holds exactly, the rounded floating-point quotient gives the exact number of parts |
| `ChunkedObjects.PackParts` | scripts/trust-setup.py:191-202 | the buffered split writes to part i exactly the bytes from i times the part size, however short the reads |
| `ChunkedObjects.Reassemble` | scripts/trust-setup.py:143-151 | accepted exactly when every part has its size and the whole its recorded size and digest; then it is the parts in order |
| `ChunkedObjects.PackedPartsVerify` | scripts/trust-setup.py:135-155 | what was packed verifies, for every object and part size |
| `ChunkedObjects.PackAndVerify` | scripts/trust-setup.py:135-206 | packing and verifying together always give the object back |
| `ChunkedObjects.AssembleChunked` | dev/locSetupV4.ts:2721-2781 | accepted exactly when the fetched parts have their sizes and the whole its recorded size and digest; once they were put together the parts left are those that could not be deleted, and when one has the wrong size they stay as fetched |
| `ChunkedObjects.ReaderRestoresObject` | dev/locSetupV4.ts:2721-2781 | what Python packed is restored, whatever prefixes of the parts an earlier attempt left and whatever can be deleted |
| `ChunkedObjects.PackAndDownload` | dev/locSetupV4.ts:2721-2781 | packed in Python and downloaded twice, where any deletion may fail: from honest leftovers the first attempt gives the object; an accepted attempt has its size and digest; an oversized leftover that cannot be deleted refuses it; otherwise after a refusal the next attempt gives the object exactly when every wrong part could be deleted |
| `ManifestLast.NextKeepsInvariant` | scripts/trust-setup.py:221-263 | every step, and stopping at any point, keeps the invariant |
| `ManifestLast.GoesOnExactly` | scripts/trust-setup.py:211-263 | an upload goes on exactly when its key is absent, a data object exactly when size and digest read back match, the manifest exactly when its bytes do |
| `ManifestLast.VisibleManifestMeansComplete` | scripts/trust-setup.py:221-263 | at every point of every run: no upload before every key was seen absent, nothing overwritten, and once the manifest is there every data object is there with its size and digest; a run that ends has the exact manifest; a check-only run writes nothing |
| `ManifestLast.HonestRunDecides` | scripts/trust-setup.py:221-263 | when nothing goes wrong the package, and nothing else, is added exactly when none of its keys was there; otherwise nothing is written |

## Left out

- Duplicate leaves and leaves of different levels: the planner documents one level and its callers pass distinct leaves (`ValidLeaves`, `ValidSlice`).
- Widths of levels and indices: node indices are unbounded here; a tree higher than 64 levels does not fit the code's 64-bit index.
- `rayon::join`, the concurrent map and the parallel iterators: pairs, maps and ordered sequences; the parallel sort is a sort.
- Hash functions: Poseidon and SHA-256 are arbitrary functions; collisions are not modelled beyond injectivity of the hashed input.
- Push.PushIsSafe: other writers create branches and move them forward only; deleted or rewound remote branches are not modelled.
- Push: local checks that can only stop a run (branch, HEAD, dirty files, missing clones) are folded into "any command may fail".
- PushResume.RerunCompletes: stated for reviewed pairs; without them a rerun reads its expected commits afresh.
- PrepareApply.Workspace.ApplyPreparation: the Cargo manifest and lock file a repository may also rewrite enter as "other files changed", and of the index only the gitlinks are modelled; of the Cargo checks only those on the order are.
- Paths of repositories and owned files: that they are real directories inside the workspace is left to the file system.
- SquashLinks.TopicLinksFollowIntegration: git's three-way merge is a parameter, assumed only to give the topic's tree when the base is below it and to keep the base's pin at a path the topic did not touch.
- SquashPush.PublicationIsSafe: other writers move base branches forward only, and the local checks before the push are folded into "any command may fail".
- PinGuard.PinsFromManifest: parsing, tables that are not tables and pins outside the four tables, which are refused earlier, are left out.
- MerkleLeaves.NaivePaddedRoot: gives the zero value for no leaves, where the other forms give an error; the model keeps both.
- Supervisor.HandleSupervisedExit: timers, process groups and the text of logs are left out; a stop asked for, the outcome of a spawn and whether it could be logged are parameters of each attempt.
- SupervisedService.Supervise: handlers of several processes of one service are run one after the other; they share no record, so only the order of their spawns could differ.
- ManifestLast.VisibleManifestMeansComplete: no one else writes under the prefix during the run, and public reads see what the store holds.
- ChunkedObjects.AssembleChunked: the download of a part continues the local file or fetches it whole; HTTP is not modelled, and a deletion either happens or does nothing.
- Frozen dependency reports, release and package commands, gitlink synchronisation, password rules, codecs, random helpers and the circuits: they would add members but no harder claims, or are cryptography.
