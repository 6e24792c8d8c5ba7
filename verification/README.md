# Verified models of monotone's core algorithms

This project models, in Dafny, the parts of the monotone version control system whose behaviour is
hard to see from the code: the copy-on-write trie under its rosters, line annotation, the
application and the text form of change sets, the graph algorithms over revisions (merge points,
erasure of ancestors, bisection, the log walk), and four dense small ones (cycle detection, the
ASCII graph, the rolling checksum and UTF-8 validation). `dafny verify dfyconfig.toml` checks the
whole project.

What is proved, in short:

* **Copy-on-write trie** (`TrieMemory`, `TrieView`, `TrieWalk`, `TrieKeys`, `TrieIsolation`,
  `TrieIterator`, `CowTrie`). Any number of tries and iterators share one memory of reference-counted
  nodes. Every operation keeps the counts equal to the number of pointers, changes at most the given
  key of the given trie, and is invisible to every other trie and every live iterator; `_count` is the
  number of non-empty keys modulo 2^32; iteration yields exactly the entries, once each, in ascending
  key order, for any branching factor and any number of levels.
* **Annotate** (`Lineages`, `Embeddings`, `AnnotateSteps`, `AnnotateCredits`, `AnnotateHanded`,
  `AnnotateOwn`, `EquivalentLines`, `Annotate`, `AnnotateMiss`). Every turn credits to its revision
  exactly the lines that no ancestor it asks has in common, and hands on the others along leftmost
  embeddings; in the end exactly its own lines are credited to the revision asked about. At every
  head of the work loop each line of the final file is credited, followed by a queued unit, or given
  up for a line that is, that is credited, or that was given up later. So when the loop ends, with
  strictly decreasing heights, every line leads to a credited one and equivalents have no cycle. The
  methods refine a step function on values; from its runs both the exact condition under which the
  final pass credits every line and a history in which it does not are proved.
* **Change sets applied** (`Paths`, `Ordered`, `Rosters`, `Csets`, `CsetApply`, `CsetAttach`,
  `CsetEdits`, `ApplyTo`, `CsetAccept`, `CsetRun`, `CsetDiffer`, `CsetMake`, `CsetDelivery`).
  `CsetAccept.Applicable` tells from the change set and the original tree alone, as if everything
  moved at once, whether the change set can be applied. The run of many steps on many intermediate
  trees is accepted exactly then, and has exactly the effect the change set states: deletions,
  renames (swaps and nested ones included), additions, contents and attributes, and nothing else;
  untouched subtrees follow their directories. The difference of any two trees at rest can be
  applied to the first and gives the second, up to the numbers of new nodes, also when it travels as
  text.
* **Change sets as text** (`Utf8`, `PathRules`, `BasicIo`, `HexCodec`, `Stanzas`, `Sections`,
  `SectionList`, `RootOrder`, `CsetText`, `CsetStanzas`, `StanzaOrder`, `CsetReader`, `CsetWriter`,
  `CsetRewrite`). Reading what is written gives the same change set, down to characters; and the
  converse holds exactly when all hex tokens are even and root stanzas are in order. Each field of a
  change set that was read holds exactly what the stanzas of its kind spell out.
* **Revision graphs** (`RevisionGraph`, `Ancestry`, `Closure`, `Erasure`, `Bisect`, `LogWalk`).
  Memoised ancestors are exact, the merge-point search ends and finds the one lowest common ancestor
  when there is one and never passes one that all others are above or below, erasure with height
  pruning and shuffled order is exact in both directions, bisection shrinks and ends at a transition
  but for what was skipped, and the log prints exactly the right revisions in order.
* **Small algorithms** (`CycleDetector`, `GraphRows`, `GraphRoom`, `GraphDrawing`, `GraphReading`,
  `Asciik`, `Adler32`, and `Utf8` again). From a drawn chunk of the graph the links can be read back.

## How the model is made

Functions, predicates and lemmas state what the code is for; methods and classes follow the code's
own loops and updates and are proved against them. Bytes of text are characters; identifiers and
paths use only characters below 256. A failed invariant or error of the source is a result `ok ==
false` (or a constructor of the result type), after which nothing is claimed about the object, as
in the source, where an exception ends the operation. Revisions, their parents, children and
heights, file contents and markings come from a database that is not part of this model: they are
parameters with stated hypotheses (parents are lower than children, heights are unique, the null
revision is the root, children are the reverse of parents).

The trie's memory is explicit: a map from references to nodes, a count for each node, and the places
that hold pointers (trie roots, iterator frames, node slots). `W` and `L`, the branching factor and
the number of levels, are arbitrary positive constants. The reference the iterator's increment keeps
into its stack while it pushes is modelled as the frame it scanned.

The seven near-identical loops of `print_cset` and of `parse_cset` are one loop over the shape of a
stanza, run for seven shapes in the source's order.

## Findings

* `find_common_ancestor_for_merge` with the null revision and another one would never end:
  `Ancestry.RootNeverMerges`.
* A hex token with an odd number of digits is accepted and its last digit dropped, so it is not
  written back (`CsetRewrite.OddHexLost`); stanzas on the root path escape the order check
  (`CsetRewrite.RootOrderLost`). `CsetText.PrintOfParse` gives the exact condition.
* `read_cset` accepts one further token behind a change set if the text ends right behind it:
  `CsetReader.ReadCset` states this, `CsetRewrite.TrailingTokenAccepted` shows it.
* The final pass of annotate can leave lines without a revision, since it follows only one equivalent
  of a chain that leads to later lines: `AnnotateMiss.FirstLineMissed` is a history in which the first
  line is left so. `EquivalentLines.ResolvedAll` gives the exact condition, and no file without a text
  in three of its lines is affected (`EquivalentLines.TwiceIsFine`).
* A revision with three or more new entries beside a line on its right need not be drawn at all, and
  the row then keeps it: `Asciik.ForkNotDrawn`. `GraphRoom.RoomIsExact` gives the exact condition. A
  forward log passes the children of a revision, of which there can be that many; with at most two
  entries there always is room (`GraphRoom.TwoParentsHaveRoom`).
* The comment in `parse_cset` says that a valid path is never empty; the root path is empty and
  valid. The code is followed.

## Model

| member | source | states |
|---|---|---|
| TrieView.Isolated | src/cow_trie.hh:46-73 | seen from a node outside a privately owned path, a change confined to the path changes no lookup |
| TrieView.WriteEffect | src/cow_trie.hh:100-111 | writing the leaf at the end of an owned path changes the lookup of exactly its own key |
| TrieView.PathIsClosed | src/cow_trie.hh:46-73 | a pointer into an owned path is its entry or a slot of the path itself |
| TrieWalk.WalkStep | src/cow_trie.hh:46-73 | opening one node and walking on below it is a walk of the whole path: exact counts, the path owned, all lookups kept |
| TrieWalk.CopiedOk | src/cow_trie.hh:55-63 | replacing a pointer to a shared node by one to a copy keeps counts equal to true pointer counts |
| TrieWalk.FilledOk | src/cow_trie.hh:48-54 | putting a fresh empty node into a null pointer keeps the counts and every lookup |
| TrieIsolation.PathIsPrivate | src/cow_trie.hh:46-73 | a state that differs only on an owned path looks the same from every other trie and iterator |
| TrieIsolation.WrittenOk | src/cow_trie.hh:100-111 | writing the value keeps the memory well-formed with exact counts, changes one key, and nobody else sees it |
| TrieIsolation.RemovedOk | src/cow_trie.hh:95-99 | destroying a node on its last reference turns its own pointers into references owed |
| TrieIsolation.FreedSame | src/cow_trie.hh:95-99 | freeing nodes nobody points to changes no lookup |
| TrieKeys.DigitsInverse | src/cow_trie.hh:64-64 | every digit sequence is the digits of the key it spells, and that key is in range |
| TrieKeys.KeyInverse | src/cow_trie.hh:64-64 | the digits of a key in range, most significant first, spell that key |
| TrieKeys.OrderOfKeys | src/cow_trie.hh:183-222 | lexicographic order of digits is the numeric order of keys |
| TrieIterator.SkipSlot | src/cow_trie.hh:192-217 | passing an empty slot of the top frame loses no entry still to come |
| TrieIterator.PushFrame | src/cow_trie.hh:206-216 | descending into a node keeps the stack linked and the entries still to come |
| TrieIterator.PopFrame | src/cow_trie.hh:218-219 | leaving an exhausted node keeps the stack linked and the entries still to come |
| TrieIterator.FoundFirst | src/cow_trie.hh:194-202 | the entry found is the first of those still to come, with the value the trie holds for it |
| TrieIterator.PushWork | src/cow_trie.hh:206-216 | the termination measure of the increment drops when a node is entered |
| CowTrie.SetKeeps | src/cow_trie.hh:100-127 | after one key of one trie changed, the sizes of all tries and the positions of all iterators are still right |
| CowTrie.SizeAfterSet | src/cow_trie.hh:100-111 | the counter moves with the number of non-empty keys, modulo 2^32 |
| CowTrie.UptoNext | src/cow_trie.hh:183-222 | after a step the entries not yet listed start at the iterator's new, greater key |
| CowTrie.ListedIsAll | src/cow_trie.hh:234-235 | a finished listing is ascending and holds a pair if and only if the trie has that entry |
| CowTrie.Tries.constructor | src/cow_trie.hh:92-92 | an empty memory satisfies the invariant |
| CowTrie.Tries.Open | src/cow_trie.hh:46-63 | the head of the walk creates a missing node, copies a shared one, and keeps counts and lookups |
| CowTrie.Tries.Walk | src/cow_trie.hh:46-73 | the path of the key becomes private, the place of its value is returned, and no lookup changes |
| CowTrie.Tries.Peek | src/cow_trie.hh:75-90 | the const walk returns the value of the key, empty when a node is missing |
| CowTrie.Tries.GetIfPresent | src/cow_trie.hh:128-134 | the value held under the key; nothing changes |
| CowTrie.Tries.Set | src/cow_trie.hh:100-111 | only the given key of the given trie changes, seen through any trie or iterator, and all invariants hold again |
| CowTrie.Tries.Unset | src/cow_trie.hh:125-127 | the key becomes empty and nothing else is seen to change |
| CowTrie.Tries.SetIfMissing | src/cow_trie.hh:112-124 | true exactly when the key was empty; only then is it set; otherwise nobody sees a change |
| CowTrie.Tries.GetUnsharedIfPresent | src/cow_trie.hh:137-144 | returns the value although it may copy nodes, and nobody sees a change |
| CowTrie.Tries.Release | src/cow_trie.hh:95-99 | giving up a reference destroys exactly the nodes that lose their last one, recursively, and restores exact counts |
| CowTrie.Tries.Advance | src/cow_trie.hh:183-222 | the increment's loop ends at the least entry after the position, or at the end when there is none |
| CowTrie.Tries.Next | src/cow_trie.hh:183-222 | the iterator moves to the next entry of the trie as it was when the iterator began, or stays at the end; nothing else changes |
| CowTrie.Tries.Begin | src/cow_trie.hh:159-169 | the iterator stands on the least entry, or at the end of an empty trie |
| CowTrie.Tries.Contents | src/cow_trie.hh:234-235 | a whole iteration lists every non-empty entry once, in strictly ascending key order, and no other trie or iterator sees a change |
| CowTrie.Tries.NewTrie | src/cow_trie.hh:92-92 | a new trie is empty and disturbs no other |
| CowTrie.Tries.CopyTrie | src/cow_trie.hh:42-44 | a copy has the same entries and count and shares all nodes unseen |
| CowTrie.Tries.Clear | src/cow_trie.hh:95-99 | the trie becomes empty; nobody else sees a change although nodes are freed |
| CowTrie.Tries.EndIterator | src/cow_trie.hh:146-182 | an iterator that goes gives up the pointers of its frames, and nobody else sees a change |
| CowTrie.Tries.EndTrie | src/cow_trie.hh:44-44 | a trie that goes gives up its root, and nobody else sees a change although nodes are freed |
| CowTrie.Tries.Fill | src/cow_trie.hh:48-54 | a null pointer is replaced by one to a fresh node of its level with all slots empty, and only that changes |
| CowTrie.Tries.Copy | src/cow_trie.hh:55-63 | a pointer to a shared node is replaced by one to a copy, whose own targets gain one reference each and the original loses one |
| CowTrie.Tries.Locate | src/cow_trie.hh:46-73 | the walk from a trie's root hands out the private place of the key, holding its old value, and nobody sees a change |
| CowTrie.Tries.Put | src/cow_trie.hh:100-111 | a write through the place handed out changes one key of one trie |
| CowTrie.Tries.Drop | src/cow_trie.hh:95-99 | a pointer given up frees only nodes nobody else reaches, and the counts are exact again |
| CowTrie.Tries.Scan | src/cow_trie.hh:192-217 | stops at the next slot that leads anywhere, or past the last, and skips no entry still to come |
| CowTrie.Tries.Descend | src/cow_trie.hh:205-215 | the pushed frame holds a counted pointer, the entries still to come stay the same, and the measure drops |
| CowTrie.Tries.Leave | src/cow_trie.hh:218-219 | the popped frame gives up its pointer, the entries still to come stay the same, and the measure drops |
| CowTrie.Tries.Found | src/cow_trie.hh:194-202 | the key assembled from the frames is the least entry after the position, with its value |
| Lineages.GreedyStep | src/annotate.cc:586-611 | matching a common subsequence greedily from the left never fails, so the assertion that it was used up holds |
| Annotate.MatchParent | src/annotate.cc:625-651 | the two loops give the parent's lines what was picked for them, and -1 elsewhere |
| Lineages.LiveGrows | src/annotate.cc:656-683 | growth of lineages and queue never loses a line a queued unit follows |
| EquivalentLines.StillCarried | src/annotate.cc:247-282 | a line followed by the unit in progress or another, and not credited by it, is followed afterwards or was just found equivalent |
| Lineages.CreditOne | src/annotate.cc:261-271 | one credit raises the number of credited lines by one |
| Annotate.Annotation.SetCopied | src/annotate.cc:284-294 | -1 is ignored, other indices are recorded and in range |
| Annotate.Annotation.SetTouched | src/annotate.cc:296-306 | -1 is ignored, other indices are recorded and in range |
| Annotate.Annotation.BuildParentLineage | src/annotate.cc:556-654 | every mapped line is copied or touched, the copied ones are mapped by the parent lineage, and it points to identical lines |
| Annotate.Annotation.Merge | src/annotate.cc:656-683 | the loop fills exactly the gaps and records exactly the disagreements |
| Annotate.Annotation.SetCopiedAllMapped | src/annotate.cc:696-705 | all mapped lines become copied |
| Annotate.Annotation.CreditMappedLines | src/annotate.cc:685-694 | all mapped lines become touched |
| Annotate.Annotation.Evaluate | src/annotate.cc:247-282 | exactly the lines touched, not copied and not yet credited are credited to the revision, and the counter follows |
| Annotate.Annotation.ProcessParent | src/annotate.cc:733-833 | one edge: whatever it copies is followed by the ancestor's unit or equivalent to a line that is, and an ancestor without the file changes nothing |
| Annotate.Annotation.DoAnnotateNode | src/annotate.cc:724-841 | one unit keeps the law of the loop, credits only revisions that have the line, and does what the step function says with the ancestors in order |
| Annotate.Annotation.Dequeue | src/annotate.cc:876-883 | the unit of strictly greatest height is taken off |
| Annotate.Annotation.Step | src/annotate.cc:874-886 | one turn of the loop keeps the law, leaves only units lower than the one taken off, and is a turn of the step function |
| Annotate.Annotation.AnnotateEquivalentLines | src/annotate.cc:316-336 | the pass gives every line the revision its chain of equivalents leads to in one pass, and the lookup never fails |
| Annotate.Annotation.Start | src/annotate.cc:850-872 | the initial queue carries every line |
| Annotate.DoAnnotate | src/annotate.cc:843-892 | ends with strictly decreasing heights; each turn credits to its revision exactly the lines no ancestor asked has in common, told by leftmost embeddings, and hands on the others; in the end exactly its own lines are credited to the revision asked about; every line leads by its equivalents to a credited one, and the final pass credits every line if and only if no uncredited line has an uncredited equivalent that is not before it, so always when no text stands three times; every revision credited has the line |
| Embeddings.SpotsLeftmost | src/annotate.cc:584-618 | matching from the left finds the leftmost embedding, and there is only one |
| AnnotateCredits.PickedLeftmost | src/annotate.cc:584-611 | a line is picked exactly when one of its positions is in the leftmost embedding of the common subsequence |
| AnnotateCredits.EdgesMark | src/annotate.cc:731-838 | after all edges exactly the lines some ancestor has in common are copied, and exactly those some ancestor lacks touched |
| AnnotateCredits.OwnIs | src/annotate.cc:247-282 | a line is touched and not copied exactly when no ancestor with the file has the same content or has one of its positions in common |
| AnnotateCredits.TurnCredits | src/annotate.cc:874-886 | every turn credits to its revision exactly the uncredited lines that are its own |
| AnnotateHanded.ViaTraces | src/annotate.cc:556-654 | a line of the ancestor's version stands for what the line paired with it stands for, the pairs being those of the leftmost embeddings; other lines stand for nothing |
| AnnotateHanded.TurnHands | src/annotate.cc:724-841 | after a turn exactly the ancestors with the file are queued beside the units queued before; their lines stand for what they stood for, or for what the unit's do where that was nothing; lines get an equivalent exactly where the two disagree |
| AnnotateOwn.RunTurns | src/annotate.cc:874-886 | every turn of every run credits and hands on as stated, for the parents of a revision in which the file changed and else the revisions in which it last did |
| AnnotateOwn.LaterTurn | src/annotate.cc:874-886 | turns after the first neither credit a line to the revision asked about nor take one from it |
| AnnotateOwn.PassOwn | src/annotate.cc:316-336 | the final pass hands none of the revision's lines on |
| AnnotateOwn.EndOwn | src/annotate.cc:843-892 | in the end exactly the lines in none of the leftmost embeddings for the revisions asked, none of them having the same content, are credited to the revision annotated |
| Annotate.Drained | src/annotate.cc:874-889 | when the loop ends every line leads by its equivalents to a credited one, so the lookup of the final pass cannot fail |
| Annotate.Loop | src/annotate.cc:874-886 | the loop makes exactly the turns of the step function, one unit of greatest height after the other |
| EquivalentLines.ResolvedAll | src/annotate.cc:316-336 | the final pass credits every line if and only if every uncredited line whose target is not before it has a credited target |
| AnnotateMiss.FirstLineMissed | src/annotate.cc:843-892 | the annotation of a history of seven revisions ends with its first line uncredited, whatever longest common subsequences are used |
| AnnotateMiss.RunGoes | src/annotate.cc:874-886 | every run of the loop on that history ends in the one state with the chain of equivalents from line 0 over 2 to 4 |
| AnnotateMiss.WholeIsLongest | src/annotate.cc:567-574 | where one text is a subsequence of the other, the longest common subsequence is that text |
| EquivalentLines.FollowedNext | src/annotate.cc:656-683 | one turn keeps the law of the loop: an uncredited line is followed by a queued unit, or was given up for one that is, that is credited, or that was given up in a later turn |
| EquivalentLines.FollowedEnds | src/annotate.cc:316-336 | with the queue empty, following equivalents from any line reaches a credited one |
| EquivalentLines.ReachesOnce | src/annotate.cc:308-314 | the number of steps is determined, so equivalents never form a cycle |
| EquivalentLines.TwiceIsFine | src/annotate.cc:316-336 | where no text stands in three lines of the file the final pass credits every line |
| EquivalentLines.RedirectedMore | src/annotate.cc:656-683 | the equivalents found by successive edges of one unit all lead to lines that are followed |
| AnnotateSteps.PickedOrPassed | src/annotate.cc:584-618 | every line of the child is picked by the common subsequence or passed over, and nothing else is |
| AnnotateSteps.PlacedAll | src/annotate.cc:625-651 | everything picked finds its place among the parent's lines |
| AnnotateSteps.MatchedMeans | src/annotate.cc:664-681 | exactly the lines on which the mappings differ get a new equivalent, which is a line of the filled mapping |
| EquivalentLines.ResolvedOccurs | src/annotate.cc:316-336 | what the pass hands on is a revision whose version has the line |
| Annotate.Annotation.MatchChild | src/annotate.cc:584-618 | the loops copy exactly the lines picked and touch exactly those passed over, and the whole subsequence is used |
| Annotate.Annotation.TouchRest | src/annotate.cc:613-618 | the lines after the last match are all touched |
| Annotate.Annotation.ParentLineage | src/annotate.cc:771-790 | the lineage handed on pairs the lines of the ancestor with those of the unit as the leftmost embeddings of what is common do, or is the unit's own for the same content |
| Annotate.Annotation.Enqueue | src/annotate.cc:792-824 | a new unit carries every line its lineage maps and no unit already queued is lost |
| Annotate.Annotation.MergeInto | src/annotate.cc:825-832 | every line mapped by the merged lineage is carried by the pending unit or an equivalent of it |
| Annotate.Annotation.EdgesOf | src/annotate.cc:731-838 | after all edges every mapped line of the unit is copied or touched, and every copied one is carried |
| Paths.LessThan | src/paths.hh:235-264 | the loop computes the path order: end of string first, then the separator, then unsigned bytes |
| Paths.LessIsComponentwise | src/paths.hh:255-260 | the order of the strings is the component-by-component order of the paths |
| Paths.DirectoryFirst | src/paths.hh:249-254 | a directory precedes everything beneath it |
| Paths.LessTrichotomy | src/paths.hh:235-264 | any two different paths are ordered one way only |
| Paths.LessTransitive | src/paths.hh:235-264 | the path order is transitive |
| Paths.DirnameBasename | src/paths.cc:607-623 | the directory's components and the base name are the components of the path |
| Paths.NextSep | src/roster.cc:705-707 | the component that starts here ends at the next separator, and what follows splits into the remaining components |
| Rosters.Roster.GetNode | src/roster.cc:692-717 | the walk over the separators finds the node the components lead to, or fails |
| Rosters.Roster.DetachNode | src/roster.cc:913-943 | accepted exactly when the path names a node not detached already; returns that node and takes it out of its directory |
| Rosters.Roster.AttachNode | src/roster.cc:1030-1081 | accepted exactly for a detached node, an existing directory, a free name and a place it was not detached from; the node is then there |
| Rosters.Roster.DropDetachedNode | src/roster.cc:969-986 | accepted exactly for a detached node that is no directory with children; the node is gone |
| Rosters.Roster.CreateDirNode | src/roster.cc:992-1006 | a fresh identity with an empty detached directory |
| Rosters.Roster.CreateFileNode | src/roster.cc:1012-1028 | a fresh identity with a detached file of the given content |
| Rosters.Roster.ApplyDelta | src/roster.cc:1083-1094 | accepted exactly when the file has the old content and the new one differs |
| Rosters.Roster.SetAttr | src/roster.cc:1106-1144 | accepted exactly when the value changes, an attribute never set counting as cleared |
| Rosters.FindInjective | src/roster.cc:692-717 | two different paths never name the same node |
| Rosters.DetachOk | src/roster.cc:913-943 | detaching moves only that node and leaves every path alone that is not at or beneath it |
| Rosters.AttachAtOk | src/roster.cc:1030-1081 | attaching moves only that node, puts it at its path, and every path that named a node still does |
| Rosters.DropOk | src/roster.cc:969-986 | dropping an empty loose node changes no path |
| Rosters.CreateOk | src/roster.cc:992-1028 | a new node is fresh and loose and changes no path |
| Rosters.EditOk | src/roster.cc:1083-1144 | editing in place changes no path |
| Ordered.NoneShared | src/cset.cc:40-54 | the two-pointer walk over ascending sequences accepts exactly when they share no element |
| Csets.CheckNormalized | src/cset.cc:26-72 | accepts exactly the change sets with no file both added and patched and no attribute both cleared and set |
| CsetApply.DetachOne | src/cset.cc:118-124 | the next path detached is above none that remain, so their paths still name their original nodes |
| CsetApply.DetachAll | src/cset.cc:197-205 | each detach returned the node its path named in the original tree, all are loose and scheduled once |
| CsetApply.DetachRefused | src/cset.cc:197-205 | a detach refused in the middle of the run was refusable from the start: its path named no node, or its destination was taken |
| CsetAttach.AttachAll | src/cset.cc:210-211 | every scheduled node ends at its path and no other node moves |
| CsetAttach.AttachingPaths | src/cset.cc:210-211 | while nodes are being attached every path names what it would name if those attached so far had been put there at once |
| CsetAttach.NextFits | src/cset.cc:138-144 | the next attach is accepted exactly when it fits the tree with all nodes attached, because directories come first |
| CsetAttach.StepKept | src/roster.cc:1030-1081 | a child that was not moved is the one that was there before |
| CsetApply.DropAll | src/cset.cc:216-217 | exactly the scheduled nodes are gone, no path changes |
| CsetApply.CreateFiles | src/cset.cc:176-178 | added files get fresh loose nodes; a path added as directory and file is refused |
| CsetApply.DetachNext | src/cset.cc:200-204 | the node the path names now is taken out and scheduled for its destination or for dropping, a taken destination being refused |
| CsetApply.CreateDirs | src/cset.cc:172-174 | each added directory gets a fresh loose node scheduled at its path, and no other node changes |
| CsetEdits.PatchAll | src/cset.cc:221-223 | every patched path went from the old to the new content, no other node changed |
| CsetEdits.SetAll | src/cset.cc:225-231 | every listed attribute changed to its value, no other attribute changed |
| ApplyTo.RanFound | src/cset.cc:197-205 | over a whole run each detach returned the node of its path in the original tree |
| ApplyTo.RanDeletes | src/cset.cc:185-217 | deleted nodes are gone and nothing else is |
| ApplyTo.RanRenames | src/cset.cc:189-211 | every renamed node is at its destination and every other surviving node keeps parent and name |
| ApplyTo.RanAdds | src/cset.cc:172-211 | added paths hold fresh nodes and nothing else is fresh |
| ApplyTo.RunApplies | src/cset.cc:147-234 | the phases together have the whole stated effect on the tree, contents and attributes included |
| CsetAccept.DetachesAre | src/cset.cc:172-205 | all detaches are accepted exactly when what is deleted or renamed is there and no two nodes are to arrive at one path |
| CsetAccept.TakenStep | src/cset.cc:197-205 | after all detaches a directory has exactly the children that were not taken |
| CsetAccept.SettlesAfter | src/cset.cc:194-211 | the path lookup of the tree with all nodes attached is the lookup the change set describes on the original tree, renamed directories above the path included |
| CsetAccept.MovesFit | src/cset.cc:207-211 | all attaches are accepted exactly when each destination has a directory that will be there, a name nothing staying has, and is not where the node came from |
| CsetAccept.DeletesFit | src/cset.cc:214-217 | all drops are accepted exactly when nothing beneath a deleted node stays |
| CsetAccept.ChangesFit | src/cset.cc:220-231 | all edits are accepted exactly when the nodes described have the contents and attributes expected |
| CsetAccept.RunSettled | src/cset.cc:147-234 | after a run every path names nothing, an original node or a new one exactly as the change set describes |
| CsetAccept.ClearSettles | src/cset.cc:147-234 | a path with nothing of the change set at or above it is described as naming its old node |
| CsetAccept.SwapApplicable | src/cset.cc:185-211 | two nodes, neither above the other, can always change places, whatever lies beneath them |
| CsetRun.MoveNodes | src/cset.cc:166-217 | the four moving phases are accepted exactly when the moves described are possible, and then nothing is left detached |
| CsetRun.EditNodes | src/cset.cc:220-231 | the edits are accepted exactly when each one is on its own, whatever their order |
| CsetRun.Apply | src/cset.cc:147-234 | from a tree with nothing detached, accepted exactly when the change set is applicable to the tree; an accepted run has the whole effect of the change set, every path names what it describes, and nothing is left detached |
| CsetDelivery.ApplyText | src/cset.cc:147-234 | any text against any tree with nothing detached: accepted exactly if it reads as a change set applicable to the tree, which then is the one the stanzas describe |
| CsetDelivery.Deliver | src/cset.cc:448-466 | a change set written as text, read back and applied is accepted exactly when it is applicable and has the effect it has itself |
| CsetDelivery.ReadIsNormal | src/cset.cc:456-466 | the paths of a change set that was read are valid and normalized, as applying demands |
| CsetDiffer.SettlesTarget | src/roster.cc:2214-2344 | what a path names once the difference of two trees has been applied at once is what it names in the second tree |
| CsetDiffer.DifferApplies | src/roster.cc:2214-2344 | the difference of two trees at rest can always be applied to the first |
| CsetDiffer.DifferGives | src/roster.cc:2214-2344 | applying it gives the second tree up to the numbers of new nodes: the same paths, contents and attributes, and shared nodes are themselves |
| CsetDiffer.GivesWhole | src/roster.cc:1213-1261 | the tree reached is at rest again |
| CsetMake.GetName | src/roster.cc:812-848 | climbing to the root gives the one path that names the node |
| CsetMake.NodeAttrs | src/roster.cc:2278-2311 | exactly the attributes that were live and are not, and those that are live with another value or were not |
| CsetMake.OnlyInFrom | src/roster.cc:2214-2221 | a node only in the first tree is deleted under its path there, and nothing else is recorded for it |
| CsetMake.OnlyInTo | src/roster.cc:2224-2243 | a node only in the second tree is added under its path there with content and live attributes |
| CsetMake.InBoth | src/roster.cc:2245-2312 | a node of both is renamed if its place differs and edited under its new path if content or attributes do |
| CsetMake.Difference | src/roster.cc:2315-2346 | refused exactly when a node changes its type; else the change set records exactly the differences of the two trees |
| CsetMake.Advance | src/roster.cc:2315-2346 | the difference between a tree and any other, applied to it, makes it the other up to numbering, and never fails |
| CsetDelivery.Transmit | src/cset.cc:448-466 | the same when the difference travels as text in between |
| ApplyTo.SubtreeFollows | src/cset.cc:147-234 | whatever lies beneath a node and is not itself detached goes where that node goes |
| ApplyTo.UntouchedPath | src/cset.cc:147-234 | a path with nothing deleted or renamed at or above it names the same node afterwards |
| ApplyTo.RenamedSubtree | src/cset.cc:147-234 | the subtree of a renamed directory ends beneath its destination |
| CsetRun.ScheduleDeletes | src/cset.cc:185-187 | one detach for dropping for each deleted path |
| CsetRun.ScheduleRenames | src/cset.cc:189-191 | refused exactly when a path is both deleted and renamed; else one detach for reattaching for each rename |
| BasicIo.Parser.GetToken | src/basic_io.hh:129-241 | reads exactly the next token of the text, or reports malformed input exactly when the text is |
| BasicIo.Parser.StringToken | src/basic_io.hh:171-238 | the fast and the slow path together read the unescaped string |
| BasicIo.Parser.HexToken | src/basic_io.hh:150-170 | reads the digits up to the bracket, refused exactly on a foreign character or the end |
| BasicIo.Parser.Advance | src/basic_io.hh:300-303 | moves to the next token of the text's token sequence, failing exactly when it is malformed there |
| BasicIo.Escape | src/basic_io.cc:39-62 | the quoted string with quotes and backslashes escaped |
| BasicIo.UnescapeEscaped | src/basic_io.cc:39-62 | reading an escaped string gives it back, whatever characters it holds |
| BasicIo.Parser.Step | src/basic_io.hh:84-98 | one character is taken and the next one looked at; at the end of the text nothing moves |
| BasicIo.Parser.SkipSpaces | src/basic_io.hh:131-140 | exactly the leading blanks are passed |
| BasicIo.Parser.SymbolToken | src/basic_io.hh:142-149 | the longest run of symbol characters is taken |
| BasicIo.Parser.SlowString | src/basic_io.hh:203-226 | copying character by character reads the unescaped rest of the string, refused exactly when it has none |
| BasicIo.Parser.EscapedString | src/basic_io.hh:179-227 | from the first escape on the string read is the text before it and the unescaped rest |
| HexCodec.Decode | src/transforms.cc:146-200 | the decoding loop: two digits a byte, blanks skipped, a last single digit dropped, garbage refused |
| HexCodec.DecodeEncoded | src/transforms.cc:124-200 | decoding an encoded byte string gives it back |
| HexCodec.EncodeDecoded | src/transforms.cc:124-200 | encoding what was decoded gives the digits back up to an odd last one |
| HexCodec.Encode | src/transforms.cc:124-144 | for each byte the digits of its sixteens and its ones, in lower case |
| Stanzas.ParseWrittenRow | src/cset.cc:356-443 | a written stanza is read back with its values |
| Stanzas.WriteParsedRow | src/cset.cc:356-443 | a stanza read is written back as the same tokens exactly when its hex tokens are even |
| Sections.SectionRoundTrip | src/cset.cc:356-443 | a printed section is read back whole and reading stops at its end |
| Sections.OrderedWhenRootIs | src/cset.cc:417-443 | a section that passed the order check is in order exactly when its root keys are |
| Sections.SectionPrinted | src/cset.cc:356-443 | a section read is printed back as the same tokens exactly when hex tokens are even and root keys in order |
| SectionList.ParsePrinted | src/cset.cc:260-446 | all printed sections are read back, one after the other |
| SectionList.PrintParsed | src/cset.cc:260-446 | all sections read are printed back the same exactly under the same condition |
| RootOrder.RootsSeen | src/cset.cc:417-443 | whether root stanzas are in order can be seen from the tokens alone |
| CsetText.ParseOfPrint | src/cset.cc:260-446 | parsing the tokens printed for any change set gives that change set and leaves nothing |
| CsetText.ParsedIsValid | src/cset.cc:337-446 | whatever is parsed holds valid paths and identifiers only, whatever follows in the text |
| CsetText.PrintOfParse | src/cset.cc:337-446 | for any token sequence parsed in full the result is printed as that sequence if and only if all hex tokens are even and root stanzas in order |
| CsetStanzas.SectionEnters | src/cset.cc:337-446 | the loop over a section enters every stanza it passes under its own key |
| CsetStanzas.SectionComes | src/cset.cc:337-446 | every entry of a section is that of a stanza the loop passed |
| CsetStanzas.ListHolds | src/cset.cc:337-446 | each section has exactly the stanzas that begin with its symbol, wherever in the text |
| CsetStanzas.PathSpelled | src/cset.cc:356-364 | a path is in the set exactly when it stands behind the symbol somewhere |
| CsetStanzas.PatchesSpelled | src/cset.cc:401-416 | a content change is recorded exactly for a patch stanza, the first identifier being the old one and the second the new |
| CsetStanzas.SetsSpelled | src/cset.cc:431-445 | an attribute value is recorded exactly for a set stanza with that path, name and value |
| CsetStanzas.ParsedSays | src/cset.cc:337-446 | for every text parsed: deletions, renames, added directories, added files, patches, cleared and set attributes are exactly those its stanzas spell out |
| StanzaOrder.ParsedInOrder | src/cset.cc:337-446 | in every text parsed the stanzas of one kind ascend by path, or by path and name, except behind one on the root path |
| CsetReader.ReadSection | src/cset.cc:356-443 | the loop with its order and duplicate checks reads exactly what the token grammar of the section reads |
| CsetReader.ReadCset | src/cset.cc:456-466 | accepts exactly a change set up to the end of the text, or followed by one token that ends the text; each field of the change set holds exactly what the stanzas of its kind say, with old and new content as named, and the stanzas of each kind are in order |
| CsetReader.Take | src/basic_io.hh:305-324 | accepted exactly for a token of the wanted type with no malformed token behind it; its text is returned |
| CsetReader.ReadRow | src/cset.cc:356-443 | the fields of a stanza are read exactly as the token grammar says, each behind its symbol |
| CsetReader.ReadSections | src/cset.cc:337-446 | the loops one after the other read exactly what the token grammar of all sections reads |
| CsetWriter.Printer.PrintStanza | src/basic_io.cc:182-197 | a blank line between stanzas and one right-aligned line per entry |
| CsetWriter.Stanza.Push | src/basic_io.cc:67-107 | the entry is appended in its text form and the indent is the longest symbol |
| CsetWriter.LinesPrint | src/basic_io.cc:182-197 | the lines of a stanza read as its tokens, whatever follows |
| CsetWriter.WriteCset | src/cset.cc:448-454 | the text written reads as the tokens of the change set and then ends; its stanzas say exactly what each field holds, in order |
| CsetWriter.RoundTrip | src/cset.cc:448-466 | reading what is written for any change set succeeds and gives that change set |
| CsetWriter.Printer.PrintLine | src/basic_io.cc:190-195 | one line: the padding up to the indent, the symbol and the value |
| CsetWriter.PrintSection | src/cset.cc:260-333 | the text grown by a loop over one part of the change set reads as its stanzas, in order |
| CsetRewrite.RewriteOfRead | src/cset.cc:448-466 | for every text read to its end, the result is written with the same tokens if and only if hex tokens are even and root stanzas in order |
| CsetRewrite.OddHexLost | src/transforms.cc:194-198 | a one-digit hex token is accepted and not written back |
| CsetRewrite.RootOrderLost | src/cset.cc:417-428 | two root stanzas in the wrong order are accepted and not written back so |
| CsetRewrite.TrailingTokenAccepted | src/cset.cc:456-466 | a text that is one unknown symbol is accepted as the empty change set |
| Ancestry.CalculateAncestors | src/ancestry.cc:168-229 | the stack search with a memo stores for every revision exactly its strict ancestors, whatever was memoised before |
| Ancestry.AncestryDifference | src/ancestry.cc:484-528 | exactly the inclusive ancestry of the first minus that of all the others, without the null revision |
| Ancestry.DifferenceHoldsA | src/ancestry.cc:484-528 | the difference holds the first revision whenever it is not empty |
| Ancestry.RoundShrinks | src/ancestry.cc:92-150 | a round of the merge-point search keeps a non-empty, strictly smaller set of common ancestors |
| Ancestry.MergePointIsCommon | src/ancestry.cc:74-154 | the merge point is a strict ancestor of all the starting revisions |
| Ancestry.MergePointIsLca | src/ancestry.cc:74-154 | if one common ancestor descends from all others it is the merge point |
| Ancestry.MergePointIsBelow | src/ancestry.cc:92-150 | a common ancestor that every other one is above or below is never passed: it is the merge point or above it |
| Ancestry.MergePointIsAbove | src/ancestry.cc:92-150 | the merge point is or is above every lowest common ancestor |
| Ancestry.Search | src/ancestry.cc:92-153 | the loop makes exactly those rounds and ends on a single leaf |
| Ancestry.FindCommonAncestorForMerge | src/ancestry.cc:74-154 | ends with a strict ancestor of both, reached by rounds of lowest common ancestors from more than one leaf; it is or descends from every common ancestor that all others are above or below, is or is above every lowest one, and is the one lowest common ancestor when there is one |
| Ancestry.RootNeverMerges | src/ancestry.cc:92-150 | with the null revision among them the rounds reach the empty set and stay there |
| Ancestry.UnionOfParents | src/ancestry.cc:205-223 | the union over the parents is exactly the strict ancestors |
| Ancestry.IntersectAncestors | src/ancestry.cc:97-123 | exactly the revisions that are strict ancestors of every leaf |
| Ancestry.AncestorsOfAll | src/ancestry.cc:125-137 | exactly the strict ancestors of some common ancestor |
| Ancestry.Round | src/ancestry.cc:92-150 | the new leaves are exactly the strict ancestors of all leaves that are an ancestor of no other such one |
| Closure.Toposort | src/ancestry.cc:231-247 | the revisions of the set, once each, by ascending height |
| Closure.AncestorsComeFirst | src/ancestry.cc:231-247 | ancestors precede descendants in the sorted order |
| Closure.LoadRevs | src/ancestry.cc:672-705 | refused exactly when the parents of the null revision would be asked for; else the set grows by exactly the revisions above (or below) its members, without the null revision |
| Closure.AddRelatives | src/ancestry.cc:693-701 | all relatives but the null revision are in the set, and every one newly in the set is queued |
| Erasure.Accumulate | src/ancestry.cc:249-281 | the pruned walk adds exactly the strict ancestors (or descendants) within the height bound to a closed set |
| Erasure.ClosedWithinHolds | src/ancestry.cc:249-281 | height pruning loses nothing: the way to a revision within the bound stays within it |
| Erasure.EraseAndFail | src/ancestry.cc:289-347 | for every order of candidates exactly those remain that pass and lie beyond no other passing one |
| Erasure.EraseAncestorsAndFailures | src/ancestry.cc:289-347 | a candidate remains if and only if it passes and is a strict ancestor of no other passing candidate |
| Erasure.EraseDescendantsAndFailures | src/ancestry.cc:409-467 | a candidate remains if and only if it passes and is a strict descendant of no other passing candidate |
| Erasure.Visit | src/ancestry.cc:265-279 | all relatives within the bound are recorded, nothing else is, and the new ones are to be visited |
| Erasure.PruningHeight | src/ancestry.cc:310-316 | the least height of a candidate, or the greatest in the other direction |
| Bisect.AddMarks | src/cmd_ws_commit.cc:2647-2682 | refused exactly on a conflicting mark; redundant marks are dropped, the others appended in order |
| Bisect.BisectSelect | src/cmd_ws_commit.cc:2433-2581 | waits, fails, finishes or selects exactly as the marks demand: finished if and only if no other revision is undecided, and else the midpoint of those that are |
| Bisect.RemainingIs | src/cmd_ws_commit.cc:2497-2543 | what remains is, on the entries alone: at or below a good mark, at or above a bad one, not skipped, above no good and below no bad mark |
| Bisect.MarkShrinks | src/cmd_ws_commit.cc:2497-2543 | marking a remaining revision, whichever way, keeps the search set and takes the revision from what remains |
| Bisect.RunShrinks | src/cmd_ws_commit.cc:2497-2580 | over a whole run the search set is fixed and what remains strictly shrinks, so the run is no longer than what remained |
| Bisect.FinishFindsTransition | src/cmd_ws_commit.cc:2552-2572 | when a run ends, every strict ancestor of the reported revision at or below a good one is at or above a good one or was skipped |
| Bisect.Bisection | src/cmd_ws_commit.cc:2433-2682 | the commands in turn, whatever the answers, record each answer for the revision its round tested and make a run no longer than there are revisions to test; they end if there are as many answers, with nothing undecided, and the end is a transition but for what was skipped |
| Bisect.MarkAndSelect | src/cmd_ws_commit.cc:2647-2682 | marking the revision under test never conflicts, and the selection goes on to a midpoint of what remains or reports the end |
| Bisect.LinearHalves | src/cmd_ws_commit.cc:2574-2580 | on a linear stretch, marking the midpoint good or bad leaves at most half |
| Bisect.Unmarked | src/cmd_ws_commit.cc:2656-2674 | stops exactly on a conflicting mark; else exactly the ids already marked so are dropped |
| Bisect.Append | src/cmd_ws_commit.cc:2676-2679 | the remaining ids are appended with their mark in ascending order, once each |
| Bisect.Collect | src/cmd_ws_commit.cc:2446-2471 | the three sets are exactly the ids with that mark |
| Bisect.Choose | src/cmd_ws_commit.cc:2553-2580 | finishes exactly when nothing remains, on the lowest bad revision; else selects the midpoint by height |
| LogWalk.Walk | src/cmd_diff_log.cc:869-984 | prints exactly the starting revisions and their ancestors, or descendants, that are not at or beyond an end, once each, in strict height order; a limit cuts that list off |
| LogWalk.VisitCovers | src/cmd_diff_log.cc:969-983 | after a visit every revision still to be shown can be reached from the frontier |
| LogWalk.Top | src/cmd_diff_log.cc:869-871 | no revision of the queue comes before the one at its top |
| LogWalk.Push | src/cmd_diff_log.cc:971-983 | exactly the interesting revisions outside the ending set are queued |
| CycleDetector.Detector.PutEdge | src/cycle_detector.hh:34-45 | the edge is there afterwards, and no other edge changed |
| CycleDetector.Detector.EdgeMakesCycle | src/cycle_detector.hh:48-89 | ends on every graph and is true exactly when a path, possibly empty, leads from the head to the tail |
| CycleDetector.InsertKeepsAcyclic | src/cycle_detector.hh:48-89 | an acyclic graph with one more edge is acyclic if and only if no path led from the head of the edge to its tail |
| CycleDetector.Detector.Add | src/cycle_detector.hh:34-89 | inserting only edges that make no cycle keeps the graph acyclic, and refuses none that could be inserted |
| CycleDetector.Detector.Scan | src/cycle_detector.hh:68-84 | under the top frame the source is found, or one new vertex is entered, or the frame is exhausted; no path yet unexplored is lost |
| Asciik.LinksCross | src/asciik.cc:144-157 | exactly the half-columns some slanted link passes |
| GraphReading.Draw | src/asciik.cc:159-261 | every index is inside the buffers, and following bars, slants, dashes and dots from a column leads to exactly the columns it is linked to |
| GraphReading.LinkLeads | src/asciik.cc:181-228 | every link is a stroke: a bar straight down, a slash from the upper right to the lower left, a backslash the other way, reached along dashes and dots from the revision where it is long |
| GraphReading.StrokeIsLink | src/asciik.cc:181-228 | every stroke is a link, from the column the pen comes from to the one it leads to |
| GraphReading.ChartShows | src/asciik.cc:159-261 | the whole chunk: one revision, bars on the lines, strokes for exactly the lines and parents, dashes only towards a parent, and bars to stretch in exactly the columns reached |
| Asciik.ChosenCloses | src/asciik.cc:349-372 | the first gap is closed if and only if what is left can follow; else the row stands as it is if it can, and if not a gap takes the revision's place |
| Asciik.Asciik.TryDraw | src/asciik.cc:263-329 | accepts exactly the layouts that fit, and then the strokes drawn are exactly the lines that go on and the links to parents, with nothing beside them |
| Asciik.FitsNoClash | src/asciik.cc:314-322 | in an accepted layout no two links want different glyphs in one cell |
| GraphRoom.TwoParentsHaveRoom | src/asciik.cc:331-375 | with at most two parents there always is room |
| GraphRoom.RoomIsExact | src/asciik.cc:331-375 | with new parents one of the two layouts tried is accepted if and only if there is room: a condition on their number, the lines on the right, the first ghost and the columns of the other parents |
| GraphRoom.FitsMeans | src/asciik.cc:278-322 | a layout with a ghost taken out is accepted exactly when in columns no line moves by more than one, no parent is far while one moves, and no link overlaps one that moves |
| GraphRoom.KeptLands | src/asciik.cc:349-361 | the column in which each line lands, after the new parents came in and the ghost went |
| GraphRoom.ParentLands | src/asciik.cc:299-312 | the column in which each parent lands |
| GraphRoom.ManyHaveNone | src/asciik.cc:363-374 | beside a line on the right four new parents are never drawn, and three only with a ghost on the left or the null revision among them |
| Asciik.ForkNotDrawn | src/asciik.cc:331-375 | a revision with three new ones to lead to beside another line is not drawn, and the row stays as it was |
| Asciik.Asciik.Print | src/asciik.cc:331-375 | drawn if and only if there is room; the first gap is closed whenever that fits and only then; the row holds the old lines without the revision plus its parents, and the strokes are exactly their links; else nothing is drawn and the row is the old one with the revision |
| Asciik.Asciik.PrintAll | src/asciik.cc:331-375 | over any run each step is as stated, the chunks drawn are those of the revisions with room, each showing its links, and the row holds exactly the open lines |
| GraphDrawing.Bars | src/asciik.cc:172-179 | a bar in every column of the row that is no ghost, blanks elsewhere |
| GraphDrawing.DrawLinks | src/asciik.cc:181-228 | the three lines hold exactly the dashes, slants and bars of all links together, whatever their order; what they mean to a reader is GraphReading.ChartLeads |
| GraphDrawing.DrawDots | src/asciik.cc:229-236 | a dot replaces the cell at the end of each long link, and only there |
| Asciik.PreservationLinks | src/asciik.cc:278-297 | refused exactly when a line would move by more than one column; else one link per line that goes on |
| Asciik.ParentLinks | src/asciik.cc:299-312 | refused exactly when lines shift and a parent is more than one column away; else one link per parent |
| Asciik.LinksMeet | src/asciik.cc:314-322 | true exactly when a preserved line and a parent link pass the same half-column |
| Asciik.Layout | src/asciik.cc:269-328 | accepts exactly the layouts that fit; the links are those of lines and parents and no two want different glyphs in one cell |
| Asciik.Candidates | src/asciik.cc:349-372 | the row with the new parents, that row without its first ghost, and the row with a ghost instead; each keeps the other lines in order and holds all parents |
| Asciik.NewParents | src/asciik.cc:343-347 | exactly the parents not in the row, in ascending order |
| Asciik.Asciik.PrintAt | src/asciik.cc:349-374 | the first layout that fits is drawn and becomes the row, closing the first gap whenever possible; with new parents and none that fits nothing changes, and the assertion of the last branch cannot fail |
| Adler32.Adler.In | src/adler32.hh:31-38 | the sums become those of the window with the byte appended, under 32-bit wrap-around |
| Adler32.Adler.Out | src/adler32.hh:40-47 | the sums become those of the window without its oldest byte, under 32-bit wrap-around |
| Adler32.Adler.ReplaceWith | src/adler32.hh:52-68 | the sums of the window; no unmasked addition overflows below 255 bytes |
| Adler32.Adler.Roll | src/adler32.hh:31-47 | after any number of slides the sums are those of the shifted window |
| Adler32.RollIsReplace | src/adler32.hh:31-68 | rolling and starting afresh give the same three fields |
| Utf8.ValidateChar | src/charset.cc:258-306 | one turn of the loop recognises exactly the characters of section 4 of RFC 3629 without the named noncharacters |
| Utf8.Validate | src/charset.cc:250-308 | accepts exactly the concatenations of shortest encodings of valid characters, and reads inside the text only |
| Utf8.AcceptsExactly | src/charset.cc:250-308 | the syntax of section 4 of RFC 3629 and the encoding of its section 3 describe the same texts |
| Utf8.DisplayWidth | src/charset.cc:80-106 | on well-formed text the number of its characters |
| Utf8.WidthCounts | src/charset.cc:80-106 | counting lead bytes counts characters |
| Utf8.ConsumeContinuation | src/charset.cc:240-248 | accepts exactly continuation bytes and appends their six bits to the value |
| Utf8.ValidateLong | src/charset.cc:272-305 | of lead bytes beyond two-byte ones, recognises exactly the characters of three and four bytes |
| Utf8.SkipEscape | src/charset.cc:93-96 | passes exactly the continuation bytes that follow |

## Left out

- Database, transactions and caches: parents, children, heights, contents and markings are parameters.
- The merge of rosters, three-way merge, conflicts and `xdelta` itself: separate algorithms.
- `longest_common_subsequence` and the interner: any common subsequence and any injective numbering of lines are allowed.
- Line splitting in annotate: both call sites are taken to split alike.
- Restricted log, diff output, certs, colours, pager and annotation strings beside the graph: user interface.
- Copy-on-write of roster nodes (`unshare`, `cow_version`): the tree is a value per state, so sharing between rosters is modelled only in the trie.
- Other implementations of the tree interface (the workspace) and `commit`: the model is the in-memory roster.
- Line and column counters of the tokenizer: they serve error messages only.
- `split_into_lines` and charset conversion: library calls.
- Annotate.DoAnnotate: does not claim that every annotation is non-null, because the final pass can leave some; the exact condition is stated.
- CsetMake.Difference: for trees at rest, so without the option to ignore detached nodes; the check of `get_name` for bookkeeping paths is not modelled.
- CsetReader.ReadCset: does not claim that the text is consumed to its end, because the source accepts one more token there.
- CsetRun.Apply: the exact condition is stated for trees with nothing detached, as `check_sane` demands of a roster at rest.
- Bisect.BisectSelect: the messages printed are not modelled.
- Asciik.Asciik.Print: requires a revision that is not the null one and not its own parent, as every revision of the system is.
- Adler32.Adler.Roll: windows are not empty, there being no oldest byte to take out.
- Memory safety of the reference the trie iterator's increment keeps across a push.
