# Message threading builder

This project models the thread builder of the Nextcloud Mail app,
`OCA\Mail\IMAP\Threading\ThreadBuilder::build`, as its unit test
`tests/Unit/IMAP/Threading/ThreadBuilderTest.php` pins it down. It also models
the test's `abstract` projection, which reads a built forest back as nested
`{id, children}` records.

The builder takes a flat list of messages. Each message has a subject, an id
and the ids it references, oldest first. It returns a forest of containers.
A container holds a message, or nothing when it is a placeholder for an id
that was referenced but never supplied. It also has an ordered list of
children. The algorithm follows the shape of the REFERENCES threading
algorithm that RFC 5256 gives for the IMAP THREAD command (BASE.6.4.THREAD),
with the departures listed under "Left out". It runs four phases:

1. Index and link. Every id gets one container. Each message's references
   are linked pairwise, oldest above; a repeated reference counts once, at its
   last position. The message goes below its last reference. A link that
   would close a cycle is skipped.
2. Attach roots. Every parentless container joins the root set, in the
   order the containers were created. Roots are not sorted by date.
3. Prune. A placeholder below the root set is removed when it has no
   children. It gives its place to its child when it has exactly one.
4. Group by subject. Roots whose subjects agree once reply markers are
   stripped are joined: the later root goes below the earlier one, except
   when only the earlier root's subject carries a reply marker, in which case
   the earlier root goes below the later one. Afterwards no two roots share a
   non-empty normalised subject.

Containers live in an arena: a sequence of containers with integer handles
and an id table. Handle 0 is a synthetic root container whose children are
the root set. The modules are:

- `Containers`: the arena, the walk up the parent pointers, and what makes
  an arena a forest.
- `Linking`: phase 1 and the root attachment.
- `Pruning`: phase 3, and `Pruned` and `Lineage`: what the phase leaves
  behind and what it keeps.
- `Subjects` and `Grouping`: phase 4, and `Merging`: what the phase leaves
  behind.
- `Threads`: the snapshot into trees, `Abstract` and `Build`.
- `Coverage`: every input message appears once in the output.
- `Builder`: the imperative builder.
- `Replies`, `Scenarios`, `Chains` and `Separate`: the test scenarios and
  their generalisations.

`Builder.ThreadBuilder` is the builder as an object: its container list and
id table are fields that its methods change in place, with loops. Each of
its methods is proved to leave exactly the arena the matching phase function
describes. So what is proved about `Threads.Build` holds of the builder.

Each test scenario is proved as a lemma on the concrete messages. Most are
also proved in a general form, e.g. for any subjects, or for any number of
messages.

## Model

| member | source | states |
|---|---|---|
| Threads.Abstract | tests/Unit/IMAP/Threading/ThreadBuilderTest.php:50-57 | the projection has one record per container, in order, with the container's message id (none for a placeholder) and as many children as the container |
| Threads.LinkedForest | tests/Unit/IMAP/Threading/ThreadBuilderTest.php:59-436 | after linking and root attachment the containers form a forest for every message list: the parent and child lists agree, no container is listed twice and every walk up ends at a parentless container |
| Threads.ChildDepth | tests/Unit/IMAP/Threading/ThreadBuilderTest.php:50-57 | in a forest a child lies exactly one level below its parent and no walk up is longer than the arena, so the recursive projection terminates |
| Containers.ReachesRoot | tests/Unit/IMAP/Threading/ThreadBuilderTest.php:50-57 | in a forest whose parentless containers other than the root are empty, the walk up from any container with a parent reaches the root container |
| Linking.LinkForest | tests/Unit/IMAP/Threading/ThreadBuilderTest.php:357-379 | linking a child under a parent keeps the forest because of the cycle guard |
| Linking.LinkOutcome | tests/Unit/IMAP/Threading/ThreadBuilderTest.php:357-379 | if the child is the parent or one of its ancestors, or already is the parent's child, nothing changes; otherwise the child ends up under the parent, appended as its last child, and the former parent loses just that entry with the rest in order; in every case the child keeps its own children (its subtree moves with it), the new and the former parent keep their own parents, and every other container is unchanged |
| Linking.GetOrCreateIdempotent | tests/Unit/IMAP/Threading/ThreadBuilderTest.php:410-436 | looking an id up again finds the same container and creates nothing, so two messages referencing the same absent id share one placeholder |
| Linking.GetOrCreateInjective | tests/Unit/IMAP/Threading/ThreadBuilderTest.php:410-436 | a newly seen id gets a container no other id holds |
| Linking.IndexAllInjective | tests/Unit/IMAP/Threading/ThreadBuilderTest.php:410-436 | after indexing, different ids are held by different containers |
| Linking.IndexAllIds | tests/Unit/IMAP/Threading/ThreadBuilderTest.php:410-436 | the id table holds exactly the ids the messages carry or reference |
| Linking.IndexAllLastWins | tests/Unit/IMAP/Threading/ThreadBuilderTest.php:95-117 | every message sits in the container registered under its id, unless a later message has the same id |
| Linking.IndexAllOnlyGiven | tests/Unit/IMAP/Threading/ThreadBuilderTest.php:67-93 | every message held by a container is one of the input messages |
| Linking.IndexAllForest | tests/Unit/IMAP/Threading/ThreadBuilderTest.php:357-379 | indexing and linking any message list, cyclic references included, yields a forest |
| Linking.AddMessageMessages | tests/Unit/IMAP/Threading/ThreadBuilderTest.php:95-117 | processing a message puts it into its own container and changes no other container's message; new containers are placeholders |
| Linking.AddMessageUnderLast | tests/Unit/IMAP/Threading/ThreadBuilderTest.php:245-299 | a message with references ends up below the container of its last reference, unless that container already lies below the message (the cycle guard) |
| Linking.DedupDistinct | tests/Unit/IMAP/Threading/ThreadBuilderTest.php:245-299 | a reference list without repeats is linked as given |
| Linking.AttachRootsForest | tests/Unit/IMAP/Threading/ThreadBuilderTest.php:67-93 | hanging the parentless containers under the root keeps the forest |
| Linking.AttachRootsOutcome | tests/Unit/IMAP/Threading/ThreadBuilderTest.php:67-93 | the root set gains the parentless containers in creation order; each of them gets the root as parent; nothing else changes |
| Replies.OrphansEvery | tests/Unit/IMAP/Threading/ThreadBuilderTest.php:67-93 | when no container has a parent, the root set lists every container in creation order |
| Pruning.PruneKeeps | tests/Unit/IMAP/Threading/ThreadBuilderTest.php:410-436 | pruning keeps the forest, every container's message, the root container and so the root set (a placeholder root stays), and keeps every message-holding container attached |
| Pruning.PruneIdentity | tests/Unit/IMAP/Threading/ThreadBuilderTest.php:167-243 | a forest with no placeholder below the root set is left unchanged by pruning |
| Pruning.SpliceForest | tests/Unit/IMAP/Threading/ThreadBuilderTest.php:410-436 | replacing a single-child placeholder by its child keeps the forest |
| Pruning.SplicePosition | tests/Unit/IMAP/Threading/ThreadBuilderTest.php:410-436 | the only child of a spliced placeholder takes the placeholder's position in the grandparent's list, the grandparent's other children staying in order; the placeholder is cut loose and no other container changes |
| Pruned.PruneRemoves | tests/Unit/IMAP/Threading/ThreadBuilderTest.php:410-436 | after pruning a forest whose containers all hang below the root, no placeholder below the root set has fewer than two children; the recursion's depth bound, the arena size, is proved never to stop it early |
| Pruned.PruneBare | tests/Unit/IMAP/Threading/ThreadBuilderTest.php:410-436 | pruning cuts no message loose: if every parentless container other than the root container is empty before, it still is afterwards |
| Lineage.DetachLineage | tests/Unit/IMAP/Threading/ThreadBuilderTest.php:410-436 | removing a childless placeholder leaves, for every message, the message-holding containers on its walk up the same and in the same order |
| Lineage.SpliceLineage | tests/Unit/IMAP/Threading/ThreadBuilderTest.php:410-436 | replacing a single-child placeholder by its child leaves, for every message, the message-holding containers on its walk up the same and in the same order |
| Lineage.PruneLineage | tests/Unit/IMAP/Threading/ThreadBuilderTest.php:410-436 | the whole pruning phase keeps every message's lineage: the message-holding containers on its walk up are the same, in the same order, before and after, so its nearest message-holding ancestor stays the same |
| Threads.LinkedRooted | tests/Unit/IMAP/Threading/ThreadBuilderTest.php:67-93 | after root attachment every container except the root container has a parent |
| Threads.LinkedPruned | tests/Unit/IMAP/Threading/ThreadBuilderTest.php:410-436 | in the pruned forest of any message list, every placeholder below the root set has at least two children |
| Subjects.ReplyNormalizesAway | tests/Unit/IMAP/Threading/ThreadBuilderTest.php:143-165 | a subject prefixed with "Re:" carries a reply marker and normalises to the same subject as the original |
| Subjects.NormalizeIdempotent | tests/Unit/IMAP/Threading/ThreadBuilderTest.php:143-165 | normalising a normalised subject changes nothing |
| Subjects.NormalizeFixed | tests/Unit/IMAP/Threading/ThreadBuilderTest.php:67-93 | a subject without blanks at its ends and without a leading marker is its own normal form |
| Grouping.GroupStepJoins | tests/Unit/IMAP/Threading/ThreadBuilderTest.php:143-165 | when a root meets another root holding its non-empty normalised subject, the two become parent and child: if only the earlier root's subject carries a reply marker, the earlier root goes below the later one and the later takes its table entry; otherwise the later root goes below the earlier one and the table is unchanged |
| Grouping.GroupKeeps | tests/Unit/IMAP/Threading/ThreadBuilderTest.php:143-165 | grouping keeps the forest and every container that had a parent keeps one |
| Merging.GroupStepMerged | tests/Unit/IMAP/Threading/ThreadBuilderTest.php:143-165 | one grouping step keeps the invariant of the phase: the table holds distinct roots already visited, each under its own key, and every visited root with a key is the one the table holds for it |
| Merging.GroupMerges | tests/Unit/IMAP/Threading/ThreadBuilderTest.php:143-165 | after grouping, no two members of the root set share a non-empty normalised subject |
| Merging.GroupBare | tests/Unit/IMAP/Threading/ThreadBuilderTest.php:143-165 | grouping cuts no message loose: if every parentless container other than the root container is empty before, it still is afterwards |
| Grouping.GroupDistinct | tests/Unit/IMAP/Threading/ThreadBuilderTest.php:67-93 | roots whose keys are pairwise different are left alone by grouping |
| Scenarios.BuildEmpty | tests/Unit/IMAP/Threading/ThreadBuilderTest.php:59-65 | no messages give an empty forest |
| Separate.SeparateThreads | tests/Unit/IMAP/Threading/ThreadBuilderTest.php:67-93 | any number of messages with distinct ids, no references and unrelated subjects give one single-message thread each, in input order |
| Separate.BuildFlat | tests/Unit/IMAP/Threading/ThreadBuilderTest.php:67-93 | the three flat messages give three leaves id1, id2, id3 in that order |
| Scenarios.ReplyBelowParent | tests/Unit/IMAP/Threading/ThreadBuilderTest.php:95-141 | for any two subjects, a message referencing an earlier one becomes its only child |
| Scenarios.BuildOneDeep | tests/Unit/IMAP/Threading/ThreadBuilderTest.php:95-117 | id2 referencing id1 gives id1 with the single child id2 |
| Scenarios.BuildOneDeepMismatchingSubjects | tests/Unit/IMAP/Threading/ThreadBuilderTest.php:119-141 | the same tree results when the subjects differ |
| Scenarios.JoinedBySubject | tests/Unit/IMAP/Threading/ThreadBuilderTest.php:143-165 | two messages without references whose subjects normalise alike (the second marked or the first unmarked) give the first with the second below it |
| Scenarios.JoinedAboveBySubject | tests/Unit/IMAP/Threading/ThreadBuilderTest.php:143-165 | the mirror case: two messages without references whose subjects normalise alike, only the first marked, give the second with the first below it |
| Scenarios.OriginalAfterReply | tests/Unit/IMAP/Threading/ThreadBuilderTest.php:143-165 | for any unmarked subject s with a non-empty normal form, a "Re:" + s message listed before an s message goes below it |
| Scenarios.BuildReplyBeforeOriginal | tests/Unit/IMAP/Threading/ThreadBuilderTest.php:143-165 | the test's two messages in the other order, "Re:s1" then "s1", give id2 with child id1 |
| Scenarios.ReplyBySubject | tests/Unit/IMAP/Threading/ThreadBuilderTest.php:143-165 | for any subject s with a non-empty normal form, messages with subjects s and "Re:" + s and no references give the first with the second below it |
| Scenarios.BuildOneDeepNoReferences | tests/Unit/IMAP/Threading/ThreadBuilderTest.php:143-165 | "s1" and "Re:s1" without references give id1 with child id2 |
| Chains.ReplyChain | tests/Unit/IMAP/Threading/ThreadBuilderTest.php:167-243 | any number of messages, each referencing only its predecessor, give one chain as deep as the list is long, whatever the subjects |
| Chains.BuildTwoDeep | tests/Unit/IMAP/Threading/ThreadBuilderTest.php:167-200 | the three-message chain id1 > id2 > id3 |
| Chains.BuildFourDeep | tests/Unit/IMAP/Threading/ThreadBuilderTest.php:202-243 | the four-message chain id1 > id2 > id3 > id4 |
| Scenarios.BinaryTree | tests/Unit/IMAP/Threading/ThreadBuilderTest.php:245-355 | a root, two replies and two replies to each give the same two-level tree, siblings in input order; the grandchildren may list the full path or only their parent |
| Scenarios.BuildTree | tests/Unit/IMAP/Threading/ThreadBuilderTest.php:245-299 | the seven messages with full reference paths give the expected tree |
| Scenarios.BuildTreePartialRefs | tests/Unit/IMAP/Threading/ThreadBuilderTest.php:301-355 | the seven messages with parent-only references give the same tree |
| Scenarios.MutualReferences | tests/Unit/IMAP/Threading/ThreadBuilderTest.php:357-379 | for any subjects, id1 referencing id2 and id2 referencing id1 give id2 as the root with the single child id1 |
| Scenarios.BuildCyclic | tests/Unit/IMAP/Threading/ThreadBuilderTest.php:357-379 | the cyclic test input gives id2 above id1 |
| Scenarios.SiblingReplies | tests/Unit/IMAP/Threading/ThreadBuilderTest.php:381-408 | for any subjects, two replies to one message become its children in input order |
| Scenarios.BuildSiblingsWithRoot | tests/Unit/IMAP/Threading/ThreadBuilderTest.php:381-408 | id1 with children id2, id3 |
| Scenarios.SiblingsBelowPlaceholder | tests/Unit/IMAP/Threading/ThreadBuilderTest.php:410-436 | for any subjects, two replies to an absent message hang below one placeholder root in input order |
| Scenarios.BuildSiblingsWithoutRoot | tests/Unit/IMAP/Threading/ThreadBuilderTest.php:410-436 | a placeholder root (id null) with children id2, id3 |
| Builder.ThreadBuilder.constructor | tests/Unit/IMAP/Threading/ThreadBuilderTest.php:42 | a new builder holds the root container alone and an empty id table |
| Builder.ThreadBuilder.GetOrCreate | tests/Unit/IMAP/Threading/ThreadBuilderTest.php:410-436 | the arena and handle afterwards are those of the functional lookup: the known container, or a fresh placeholder registered under the id |
| Builder.ThreadBuilder.Fill | tests/Unit/IMAP/Threading/ThreadBuilderTest.php:95-117 | the container receives the message, in place |
| Builder.ThreadBuilder.Detach | tests/Unit/IMAP/Threading/ThreadBuilderTest.php:357-379 | the child leaves its parent's list, in place, as the functional detach describes |
| Builder.ThreadBuilder.Attach | tests/Unit/IMAP/Threading/ThreadBuilderTest.php:381-408 | the child is appended to the parent's list, in place |
| Builder.ThreadBuilder.Reaches | tests/Unit/IMAP/Threading/ThreadBuilderTest.php:357-379 | the loop up the parent pointers answers true exactly when the child lies on the walk up from the parent |
| Builder.ThreadBuilder.Link | tests/Unit/IMAP/Threading/ThreadBuilderTest.php:357-379 | the arena afterwards is the functional link, cycle guard included |
| Builder.ThreadBuilder.LinkNext | tests/Unit/IMAP/Threading/ThreadBuilderTest.php:245-299 | one reference gets its container, linked under the previous reference's |
| Builder.ThreadBuilder.LinkReferences | tests/Unit/IMAP/Threading/ThreadBuilderTest.php:245-299 | the loop over a reference list leaves the arena and last container of the functional walk |
| Builder.ThreadBuilder.AddMessage | tests/Unit/IMAP/Threading/ThreadBuilderTest.php:95-117 | processing one message in place yields the functional result |
| Builder.ThreadBuilder.IndexAll | tests/Unit/IMAP/Threading/ThreadBuilderTest.php:67-93 | the loop over the messages, from a fresh arena, yields the functional indexing of the whole list |
| Builder.ThreadBuilder.AttachRoots | tests/Unit/IMAP/Threading/ThreadBuilderTest.php:67-93 | the loop over the containers yields the functional root attachment |
| Builder.ThreadBuilder.Splice | tests/Unit/IMAP/Threading/ThreadBuilderTest.php:410-436 | the placeholder gives way to its only child, in place |
| Builder.ThreadBuilder.PruneSelf | tests/Unit/IMAP/Threading/ThreadBuilderTest.php:410-436 | the decision for one container matches the functional pruning step |
| Builder.ThreadBuilder.PruneNode | tests/Unit/IMAP/Threading/ThreadBuilderTest.php:410-436 | pruning below and at a container matches the functional pruning |
| Builder.ThreadBuilder.PruneEach | tests/Unit/IMAP/Threading/ThreadBuilderTest.php:410-436 | the loop over a child list matches the functional pruning of each in turn |
| Builder.ThreadBuilder.Prune | tests/Unit/IMAP/Threading/ThreadBuilderTest.php:410-436 | the loop over the root set yields the functional pruning phase |
| Builder.ThreadBuilder.GroupStep | tests/Unit/IMAP/Threading/ThreadBuilderTest.php:143-165 | one root recorded or joined, in place, with the same new table as the functional step |
| Builder.ThreadBuilder.GroupBySubject | tests/Unit/IMAP/Threading/ThreadBuilderTest.php:143-165 | the loop over the root set yields the functional grouping phase |
| Builder.ThreadBuilder.Build | tests/Unit/IMAP/Threading/ThreadBuilderTest.php:59-436 | the builder returns exactly the forest of `Threads.Build`, so every scenario above holds of it |
| Coverage.FlattenSnapshot | tests/Unit/IMAP/Threading/ThreadBuilderTest.php:50-57 | reading the projection of a snapshot in pre-order lists the ids of the containers in the pre-order of the forest |
| Coverage.PreorderAllNoDup | tests/Unit/IMAP/Threading/ThreadBuilderTest.php:50-57 | the pre-order of the trees below a container lists no container twice |
| Coverage.IndexAllRegistered | tests/Unit/IMAP/Threading/ThreadBuilderTest.php:95-117 | after indexing, every message sits in the container its id is registered under |
| Coverage.EachOnceIn | tests/Unit/IMAP/Threading/ThreadBuilderTest.php:59-436 | in a list of containers without repeats that covers every input id, each input id occurs exactly once and no other id occurs |
| Coverage.BuildEachOnce | tests/Unit/IMAP/Threading/ThreadBuilderTest.php:59-436 | for every message list, the projection of the built forest lists each id an input message carries exactly once and no other id: no message is lost or duplicated (which of several messages with one id is kept is `Linking.IndexAllLastWins`) |

## Left out

- The implementation files `ThreadBuilder`, `Container` and `Message` are not part of this model. The algorithm is reconstructed from the behaviour the test asserts, following the shape of the REFERENCES algorithm of RFC 5256.
- Date sorting of the root set and of siblings (RFC 5256 sorts by date): the test keeps input order, and so does the model.
- PHP object identity: containers are arena entries addressed by handle, not shared objects; `getParent`/`getChildren` become the `parent` and `children` fields.
- Subjects.Normalize: which reply markers exist is not fixed by the test beyond "Re:"; the model strips "re:" and "fwd:" in any letter case and trims ASCII blanks. It does no Unicode case folding.
- Pruning of a placeholder that has several children below the root set: the model keeps it as a grouping node. RFC 5256 step (3)(B) deletes it and promotes its children to its level. No test exercises it.
- Root-level placeholders with no child or a single child: the model keeps them. RFC 5256 step (3)(A) deletes the first, and step (3)(B) promotes the only child of the second to the root level. The test only has a root-level placeholder with two children, which both keep.
- Pairwise reference links: the model re-parents a container that already has a parent, with the cycle guard. RFC 5256 step (1)(A) leaves a link that already exists alone. No test exercises a conflict between reference lists.
- A message without references: the model leaves its container under any parent an earlier message's references gave it. Jamie Zawinski's "Message Threading" description, which the RFC's algorithm follows, makes it parentless (its step 1.C). No test exercises it.
- Grouping.Representative: a placeholder root with two or more children has no representative message, so its key is empty and it takes no part in subject grouping. RFC 5256 step (5)(B)(i) takes such a root's subject from its first child, and step (5)(C) then puts a message root with that subject below the placeholder, or pools the children of two such placeholders. The test never has a placeholder root meet another root with the same subject.
- Two roots with the same normalised subject where both or neither subject carries a reply marker: the model puts the later root below the earlier one. RFC 5256 step (5)(C) puts both below a new placeholder. The test only has a marked reply after an unmarked original.
- Messages with a duplicate id: a later message takes over the container of an earlier one. No test exercises this.
- The test framework (`setUp`, `assertEquals`) and the PHP array handling (`array_values`) are not modelled.
