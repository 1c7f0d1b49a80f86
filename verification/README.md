# KBFS in Dafny

A Dafny model of the hard core of KBFS, the Keybase file system, with proofs about it. The parts:

- **Conflict resolution** (`ChainCollapse`, `ChainIndex`, `ChainRuns`, `ChainOriginals`, `ChainBuild`, `BranchMeaning`,
  `Actions`, `ConflictNames`, `ActionRuns`, `AttrRuns`, `RenameLinks`). The operations of a branch are folded into chains,
  indexed by the first and by the current block pointer of each node. Cancelling operations are collapsed. The actions of
  a directory are collapsed again and carried out, and conflicting renames become symlinks.
- **Journaled block references** (`DiskJournal`, `BlockRefs`, `BlockServerMemory`, `BlockJournal`, `BlockServers`). The
  on-disk journal with appends interrupted at any write; the block server that keeps its references in such a journal and
  its blocks in files, stopped after any write of any call and started again; and the proof that it answers like the block
  server in memory.
- **Dirty-byte accounting** (`DirtyBlocks`, `DirtyFiles`, `DirtyRuns`, `SharedCache`). The blocks of files move through
  syncs, and retries of them, and with them the byte counters that slow down writers.
- **Quota reclamation** (`RevisionRanges`, `Reclamation`). A paged walk back through the history picks a range of
  revisions; successive rounds cover the history without gap or overlap.
- **Smaller parts**: handles of folders and the resolution of social assertions (`SortedLists`, `TlfHandles`), rekeying
  (`KeyBundles`), padding and splitting of blocks (`BlockPadding`, `BlockSplitter`), handle tables (`HandleTables`) and
  paths (`PathText`, `KbfsPaths`). `Outcomes`, `Collections` and `Arithmetic` hold what many parts use.

Objects that the Go code updates in place are classes, loops are loops, and each method is proved equal to a specification
function or relation; the lemmas say what those mean. `dafny verify dfyconfig.toml` checks the project.

Conventions. Block pointers, IDs, nonces and user IDs are numbers, since only their identity (or order) matters. The
history that chains are built from is *admissible*: an update starts from a pointer that is current or was never part of a
node, and leads to itself or to a pointer that was not mentioned before. Outside effects are parameters: the clock (as a
time limit), random bytes and server halves, the hash of a block, the encoded length of a block, copies of file blocks, and
the order in which Go goes through a map (any element is picked, and the contracts hold for every choice).

Main results, each for all inputs or all runs:

- the chains of a branch, replayed per directory, give what its operations made of the tree (`BranchMeaning.BranchTold`),
  and the collapsed chains do so exactly under a condition on each chain (`BranchMeaning.CollapsedBranchExact`,
  `BranchMeaning.CheckedBranchExact`); the index finds every node by every pointer it has had, and its created, deleted
  and renamed nodes are those of the operations (`ChainRuns`, `ChainBuild.BranchMarks`); the chains can be built exactly
  if every rename has its directories (`ChainBuild.BuildsExact`);
- carrying out any list of actions loses no merged entry that no action names (`ActionRuns.EntryIsKept`), and leaves
  exactly the names that the last additions and removals say (`ActionRuns.NamesAfterRun`); the symlinks made for
  conflicting renames lead to the right node (`RenameLinks`); collapsing a list of attribute copies, no two of which go
  from different names to the same, keeps its effect on every directory exactly if no two go from the same name to
  different ones (`AttrRuns.CollapsedAttrsExact`);
- however appends are interrupted, the journal reads back as exactly the completed ones (`DiskJournal.RunReadsBack`);
- reading the journal files that the calls of a run have written gives the references in memory
  (`BlockJournal.RunSync`); with calls stopped after any write and restarts in between, the disk holds exactly what the
  completed calls logged, and memory does after every restart (`BlockJournal.EventsReplay`); an event leaves the blocks
  that the journal refers to exactly if it does not lose one (`BlockJournal.HappenStored`); and the journaled server
  answers like the one in memory (`BlockServers.RunAnswers`);
- through syncs and retries, of any number of files at once, the byte counters account for the blocks, and they return to
  where they were exactly if what the files charge is what they settle (`SharedCache.SharedRunBalances`,
  `SharedCache.AllFinished`, `DirtyFiles.FinishReturns`);
- rounds of reclamation delete the pointers of every revision exactly once (`Reclamation.RunTiles`), and those are the
  ones its operations leave unreferenced (`Reclamation.RunDeletes`);
- resolving assertions is confluent and keeps access (`TlfHandles`), rekeying gives every listed device the key
  (`KeyBundles.RunGivesAccess`), and padding, handles and paths have their inverses (`BlockPadding`, `HandleTables`,
  `KbfsPaths`).

Where the code does not do what its comments or a caller would expect, the model follows the code. A lemma gives an input,
and another says exactly when it happens:

- a file renamed over a symlink that was there before the branch, and then removed, brings the symlink back: a rename
  unreferences nothing when the overwritten entry has no block (root_metadata.go:713), so its chain has no remove for it,
  and collapse drops the create and the later remove (`SymlinkComesBack`; exactly when, `CheckedBranchExact`). In bare
  lists a name created twice and then removed comes back too (`CollapseCanResurrect`, `CollapsePreservesReplay`), but
  creating a name that is taken is refused;
- `changeOriginal` only checks that the new pointer is not already a first pointer; following `originals` ends everywhere
  exactly if it is not a later pointer of the same chain, and ends at the new pointer exactly if that was never in the
  branch (`LaterPointerAsFirst`, `ChangedOriginalExact`). The one caller passes a pointer created on the other branch
  (conflict_resolver.go:477), which this branch cannot have mentioned, so it stays on the good side;
- a journal stopped in its very first append, after the earliest ordinal is written, cannot be read until an append
  completes (`StoppedFirstAppend`, `RunReadsBack`), so that a block server stopped there does not start again
  (`InterruptedFirstPut`, `Interruption`);
- a list of references that is refused midway changes memory but not the journal, and archiving no references of an
  unknown block changes the journal but not memory; the comparison at shutdown then fails (`RefusedRemovalDesyncs`,
  `StepSync`). If the references left in memory are then removed, the block goes, and a restart finds the other references
  again without it (`RefusedRemovalLoses`, `HappenStored`);
- stopping between deleting a block and the last write of the journal entry brings back a reference to a block that is
  gone (`InterruptedRemoval`, `Interruption`);
- the journal accepts a changed key half that the server in memory refuses (`ChangedHalfCanComeUp`, `StepRefines`);
- syncing more bytes than were reported leaves the counters off (`UnreportedBytes`, `FinishReturns`, `PlainFinish`);
- the unmerged action that takes precedence for a key and the last merged rename with that key both stay exactly if the
  key does not have both (`ReservedNamesCollide`, `PrecedenceExact`). They share a key only if the unmerged name starts
  with `.kbfs`, and names with that prefix are refused when an entry is made (data_types.go:34,
  folder_branch_ops.go:2033), so this needs an entry that came about in some other way; for all other names the precedence
  holds (`CollapsePrecedence`);
- of two attribute copies of one unmerged name to two merged names only the first stays, and the second entry does not get
  the attributes (`CopiesToTwoNames`, `CollapsedAttrsExact`). One directory can be given both, because the actions of a
  file go to its merged parent whatever its unmerged one was (conflict_resolver.go:1753-1757);
- a check for quota reclamation looks only at the age of the head: work is overlooked exactly if there is no new revision,
  the head is not old enough, and older revisions have become so since the last round (`OverlookedWork`,
  `WorkIsNecessary`);
- the symlink for a directory renamed on both branches is wrong if its old parent is inside it (`LinkInsideItself`,
  `DoubleLinkResolves`);
- a public folder with an unresolved writer that resolves to the public user stops being public
  (`PublicWriterShutsOut`, `AccessIsKept`);
- a user listed as writer and reader in one rekey loses the new halves of the writer devices (`BothSidesLoses`,
  `RekeyExact`);
- blocks of 2^32 bytes or more do not survive padding; from 2^31 bytes on the 32-bit arithmetic overflows, and the result
  is still right (`DepadUndoesPad`). The check that padded bytes are long enough overflows for the last four lengths, so
  that bytes cut short are then not refused (`OverflowingLength`, `DepadExact`).

## Model

| member | source | states |
|---|---|---|
| ChainCollapse.CrChain.constructor | libkbfs/cr_chains.go:17-21 | a chain starts with no operations |
| ChainCollapse.CrChain.Collapse | libkbfs/cr_chains.go:29-65 | the operations left are the collapsed list of those there were |
| ChainCollapse.CancelledRule | libkbfs/cr_chains.go:25-65 | for every list: a create is dropped exactly if the next operation on its name removes it or renames over it, a remove exactly if the operation on its name before it is a create |
| ChainCollapse.CollapsedStep | libkbfs/cr_chains.go:29-65 | collapse is a stack per name: creates are pushed, removes pop a create or are pushed |
| ChainCollapse.CollapsePreservesReplay | libkbfs/cr_chains.go:25-65 | the collapsed chain has the same effect on a directory exactly if no name that ends removed was created over an entry collapse does not know |
| ChainCollapse.CollapseKeepsMeaning | libkbfs/cr_chains.go:25-65 | on every list in which no entry from before is overwritten the effect is the same |
| ChainCollapse.CollapseHides | libkbfs/cr_chains.go:25-65 | on every list the file system lets through it is the same exactly if no name that ends up removed was renamed over while it was still the entry from before |
| ChainCollapse.CollapseCanResurrect | libkbfs/cr_chains.go:29-65 | two creates and a remove of a name leave the name after collapsing |
| ChainCollapse.CollapsedShape | libkbfs/cr_chains.go:29-65 | on every list the file system lets through, every name keeps at most one remove and then at most one create |
| ChainCollapse.CollapseIdempotent | libkbfs/cr_chains.go:29-65 | on these lists collapsing twice is collapsing once |
| Ops.UpdatesAre | libkbfs/ops.go:251-1005 | the pointer replacements of an operation are those listed in it, in order, and then those of its own file or directories |
| ChainIndex.CrChains.constructor | libkbfs/cr_chains.go:595-606 | a new index holds no nodes |
| ChainIndex.CrChains.AddOp | libkbfs/cr_chains.go:282-290 | the operation is appended to the chain of the node with that current pointer, and there has to be one |
| ChainIndex.CrChains.ApplyUpdate | libkbfs/cr_chains.go:296-311 | the node of the old pointer, or a new one, is found under the new pointer, under its first pointer and in originals |
| ChainIndex.CrChains.ApplyAll | libkbfs/cr_chains.go:295-312 | all updates of an operation are followed in order |
| ChainIndex.CrChains.OriginalFromMostRecentOrSame | libkbfs/cr_chains.go:565-576 | the first pointer of the node with that current pointer, or the pointer itself |
| ChainIndex.CrChains.MostRecentFromOriginalOrSame | libkbfs/cr_chains.go:543-554 | the current pointer of the node with that first pointer, or the pointer itself |
| ChainIndex.CrChains.Record | libkbfs/cr_chains.go:314-327 | what an operation references is created, and the first pointers of what it unreferences are deleted |
| ChainIndex.CrChains.AddEntries | libkbfs/cr_chains.go:329-465 | each part of an operation goes to the chain of its directory or file, up to the first that has none |
| ChainIndex.CrChains.MakeChainForOp | libkbfs/cr_chains.go:292-467 | an operation succeeds exactly if all its parts land on current pointers, and the index then holds the nodes after it |
| ChainIndex.CrChains.TrackRename | libkbfs/cr_chains.go:403-436 | a rename updates the entry under the node's first pointer, parents by first pointers |
| ChainIndex.CrChains.ChangeOriginal | libkbfs/cr_chains.go:750-785 | for any index and pointers: fails exactly if there is no such chain or the new pointer is a first pointer; else the node is found under it everywhere |
| ChainIndex.MovedConsistent | libkbfs/cr_chains.go:295-312 | an admissible update keeps first and current pointers one-to-one and changes no node's first pointer |
| ChainIndex.RunConsistent | libkbfs/cr_chains.go:295-312 | so does any run of admissible updates |
| ChainIndex.HomeIsOrigin | libkbfs/cr_chains.go:277-312 | every pointer a node has had is traced back to its first, as walking the updates backward does |
| ChainIndex.TipIsLatest | libkbfs/cr_chains.go:248-254 | the current pointer of a node is the end of walking the updates forward |
| ChainIndex.CurrentIsLatest | libkbfs/cr_chains.go:248-312 | after any admissible list of updates a pointer of a node is current exactly if no update has replaced it |
| ChainIndex.FollowEndsHome | libkbfs/cr_chains.go:277-279 | following originals from any pointer of a node ends at its first pointer |
| ChainRuns.RunKeepsNodes | libkbfs/cr_chains.go:292-467 | any admissible run of operations keeps the nodes one-to-one |
| ChainRuns.IndexFollowsTrails | libkbfs/cr_chains.go:248-312 | after any run both maps give the two ends of each node's trail through the updates |
| ChainRuns.RootIsFound | libkbfs/cr_chains.go:565-576 | after any run, a current pointer is taken to the start of its trail and any other pointer to itself |
| ChainRuns.MarksExact | libkbfs/cr_chains.go:314-327 | after any run the created nodes are exactly those some change references, and the deleted ones exactly the first pointers of those some change unreferences while they are current |
| ChainRuns.OriginalsAreFirst | libkbfs/cr_chains.go:277-312 | originals has exactly the pointers that replaced another and maps each to its node's first |
| ChainRuns.RenamesTracked | libkbfs/cr_chains.go:262-436 | however often a node is renamed or moved, its entry has the first source and the last destination |
| ChainOriginals.RehomedConsistent | libkbfs/cr_chains.go:750-785 | a changed first pointer keeps the index one-to-one exactly if it is not the current pointer of another node |
| ChainOriginals.RehomedMarks | libkbfs/cr_chains.go:750-785 | when the first pointer of a node is changed to one under which nothing is known, looking up any pointer finds for its node the operations, current pointer and created, deleted and renamed marks it found before |
| ChainOriginals.StepKeepsLed | libkbfs/cr_chains.go:750-785 | updates and changed first pointers in any mix keep originals free of cycles |
| ChainOriginals.OriginalsEndAtFirst | libkbfs/cr_chains.go:277-279 | after any such run, following originals ends at the present first pointer |
| ChainOriginals.StaleFirstPointerCycles | libkbfs/cr_chains.go:750-785 | making a later pointer of a chain its first closes a cycle |
| ChainOriginals.ChangedOriginalEnds | libkbfs/cr_chains.go:750-785 | where following originals ends from every pointer, for any new first pointer the code accepts: at the pointer's own first, at the new one, at the first of the node that has it, or nowhere |
| ChainOriginals.ChangedOriginalExact | libkbfs/cr_chains.go:750-785 | it ends from every pointer exactly if the new one is not a later pointer of the same chain, and at the new one exactly if that was never in the branch |
| ChainOriginals.LaterPointerAsFirst | libkbfs/cr_chains.go:750-769 | an update of 1 to 2 and a change of 1 to 2, after which it does not end |
| ChainBuild.CollapseAll | libkbfs/cr_chains.go:648-652 | every chain is collapsed, whatever the order, and the index is kept |
| ChainBuild.LandsExact | libkbfs/cr_chains.go:329-465 | whatever came before, an operation other than a rename always finds its chain, and a rename exactly if its directories are set and its new directory is not replaced by its old one |
| ChainBuild.BuildsExact | libkbfs/cr_chains.go:608-652 | building the chains of a list of operations fails exactly if one of them is a rename that does not |
| ChainBuild.BranchMarks | libkbfs/cr_chains.go:314-327 | the created and deleted nodes of a branch, read off the fields of its operations |
| ChainBuild.BranchRenamesTracked | libkbfs/cr_chains.go:343-436 | under a node's first pointer the index has the directory and name of the first rename operation of the branch that moves it, and those its last one moves it to |
| ChainBuild.NewCRChains | libkbfs/cr_chains.go:608-671 | succeeds exactly if every operation can be followed, and holds the nodes of the run with collapsed chains |
| BranchMeaning.BranchTold | libkbfs/cr_chains.go:292-467 | after any admissible branch whose renames tell what they move, symlinks included, every chain replays to what the operations made of its directory; if the operations also pass the checks of the file system, the chain is one it lets through |
| BranchMeaning.CollapsedBranchExact | libkbfs/cr_chains.go:608-671 | for any branch whose renames tell what they move, the collapsed chain of a directory gives the same names for the same nodes exactly if no removed name is left over |
| BranchMeaning.CheckedBranchExact | libkbfs/cr_chains.go:608-671 | for any branch the file system lets through, exactly if no removed name was renamed over, without unreferencing anything, while it was still the entry from before the branch |
| BranchMeaning.CollapsedBranchMeans | libkbfs/cr_chains.go:608-671 | if every rename over an entry unreferences blocks, the collapsed chains give every directory the same names for the same nodes |
| BranchMeaning.SymlinkComesBack | libkbfs/cr_chains.go:343-402 | a branch the file system lets through, in which a file is renamed over a symlink and removed: the tree is without the name, the collapsed chain leaves it |
| BranchMeaning.LandRename | libkbfs/cr_chains.go:343-402 | the removes and the create that a rename is split into have its effect on both directories, whether or not it overwrites an entry and says so |
| Actions.Collapse | libkbfs/cr_actions.go:830-902 | the list left is the collapsed one |
| Actions.Consider | libkbfs/cr_actions.go:838-887 | after each action, the top of every key and the marked actions are those of the first so many |
| Actions.MergeAttrs | libkbfs/cr_actions.go:860-873 | attributes are added unless there |
| Actions.CollapseLeavesTop | libkbfs/cr_actions.go:816-902 | each key keeps the action on top and no other |
| Actions.CollapseKeepsOthers | libkbfs/cr_actions.go:830-902 | removals of merged entries and drops of unmerged operations all stay, in order |
| Actions.TopIsPreferred | libkbfs/cr_actions.go:831-887 | where merged renames do not interfere, the top is the last rename, else the last entry copy, else the first attribute copy |
| Actions.PrecedenceExact | libkbfs/cr_actions.go:831-887 | for every list and key, the preferred unmerged action and the last merged rename both stay exactly if there are not both, and the one there is, is all that is left |
| Actions.CollapsePrecedence | libkbfs/cr_actions.go:831-887 | for names without the reserved prefix each name keeps exactly one unmerged action, of the highest precedence present, and each merged name its last rename |
| Actions.ReservedNamesCollide | libkbfs/cr_actions.go:881-887 | a merged rename drops an unmerged rename of the prefixed name |
| Actions.AttrsAreUnion | libkbfs/cr_actions.go:859-874 | an attribute-only group keeps exactly the attributes any of it asked for |
| Actions.CollapseIdempotent | libkbfs/cr_actions.go:830-902 | collapsing again changes nothing |
| ConflictNames.SplitExtension | libkbfs/conflict_renamer.go:42-60 | base and extension split at the last mark |
| ConflictNames.SplitConcats | libkbfs/conflict_renamer.go:41-60 | base and extension make up the name |
| ConflictNames.SplitIsExtension | libkbfs/conflict_renamer.go:42-60 | an extension is a dot, or .tar., and then no mark, and not the whole last part of the path |
| ConflictNames.ExtensionIsSplit | libkbfs/conflict_renamer.go:42-60 | and every such extension, after a stem that is neither empty nor ends in a slash, is split off, with `.tar` if that is there |
| ConflictNames.CandidatesDistinct | libkbfs/cr_actions.go:143-149 | the 101 candidate names are different |
| ConflictNames.DecimalWrites | libkbfs/cr_actions.go:145 | the number in a name is written in decimal without a leading zero |
| ConflictNames.UniqueNameIsFree | libkbfs/cr_actions.go:138-152 | the name found is the first of the name itself and a hundred numbered ones that is not taken; none is found exactly if all are, which needs more than a hundred entries |
| ConflictNames.UniquifyName | libkbfs/cr_actions.go:138-152 | the first free candidate |
| ActionRuns.DirBlock.CopyFrom | libkbfs/cr_actions.go:407-470 | the file, or symlink, is added under a free name, or nothing changes |
| ActionRuns.DirBlock.RenameMergedEntry | libkbfs/cr_actions.go:643-673 | the merged entry moves to a free name and the unmerged one takes its place, with the partial effect of the error path |
| ActionRuns.DirBlock.CopyEntryFrom | libkbfs/cr_actions.go:154-199 | the entry, or its size only, is copied, also from the block itself |
| ActionRuns.DirBlock.CopyAttrsFrom | libkbfs/cr_actions.go:302-330 | the attributes are copied between two entries that are there |
| ActionRuns.DirBlock.RemoveEntry | libkbfs/cr_actions.go:371-379 | the entry is gone, if it was there |
| ActionRuns.DirBlock.DoAction | libkbfs/conflict_resolver.go:2025-2055 | one action of any kind |
| ActionRuns.DirBlock.DoActions | libkbfs/conflict_resolver.go:2022-2056 | succeeds exactly if every action does, with the directory after all of them |
| ActionRuns.DoKeeps | libkbfs/cr_actions.go:154-673 | an action without error keeps every merged entry it does not concern, different ones under different names |
| ActionRuns.EntryIsKept | libkbfs/conflict_resolver.go:2022-2056 | so does any list of actions of all kinds: a merged entry is lost or changed only by an action that names it |
| ActionRuns.EntriesStayApart | libkbfs/conflict_resolver.go:2022-2056 | no two such entries end under one name |
| ActionRuns.RemoveTakesOut | libkbfs/cr_actions.go:371-379 | a removed entry is gone and all others are untouched; a missing one is an error that changes nothing |
| ActionRuns.NamesAfterAction | libkbfs/cr_actions.go:154-673 | the names after an action are those there were, without a removed one, and the one it adds |
| ActionRuns.NamesAfterRun | libkbfs/conflict_resolver.go:2022-2056 | a name is there after a run of actions exactly if the last action to add or remove it adds it, or none does and it was there |
| ActionRuns.CopyEntryPuts | libkbfs/cr_actions.go:154-199 | field by field, what copying an entry leaves: all of it, only its size and block over an entry of a swapped block, or with the attributes kept for a new one |
| ActionRuns.RenameBringsIn | libkbfs/cr_actions.go:407-673 | and the unmerged entry, with its size, times and type, or a link in its place, is there under the name it was given, or under the merged entry's old one |
| ActionRuns.RenamesKeepAll | libkbfs/cr_actions.go:407-673 | any list of renames without error keeps every merged entry, each under its own name, and adds one entry per action |
| ActionRuns.DoSucceeds | libkbfs/cr_actions.go:154-673 | an action succeeds exactly if the entries it names are there, a name is free where it needs one, and what it copies can be copied |
| ActionRuns.FailureLeaves | libkbfs/cr_actions.go:154-673 | a failed action leaves the directory as it was, except that a merged entry already copied aside is then there twice |
| ActionRuns.WithAttrsIs | libkbfs/cr_actions.go:316-326 | field by field, exactly the attributes asked for are copied, in whatever order and however often |
| ActionRuns.MergedAttrsSame | libkbfs/cr_actions.go:859-874 | the attribute copy that collapse leaves of two has the effect of both |
| AttrRuns.AttrRun | libkbfs/cr_actions.go:302-330 | a list of attribute copies in which no merged name has two unmerged ones succeeds exactly if all names are found, and gives each entry the attributes asked for it |
| AttrRuns.CollapsedAttrsRunSame | libkbfs/cr_actions.go:816-902 | with names in pairs, the collapsed list makes the same directory as the whole list, or fails as it does |
| AttrRuns.CollapsedAttrsExact | libkbfs/cr_actions.go:816-902 | for lists in which no merged name has two unmerged ones: it does so on all directories exactly if no unmerged name has two merged ones |
| AttrRuns.CopiesToTwoNames | libkbfs/cr_actions.go:859-874 | two copies of one entry to two names, after which the second entry has the attribute only from the whole list |
| RenameLinks.FixCycle | libkbfs/conflict_resolver.go:1361-1434 | a cycle is found exactly if the renamed directory is on the merged path, and the link leads from the full merged path of the new parent to it |
| RenameLinks.UpLinkResolves | libkbfs/conflict_resolver.go:1274-1284 | k times up leads k levels up |
| RenameLinks.MakeDoubleLink | libkbfs/conflict_resolver.go:1498-1537 | the text of the link for two paths |
| RenameLinks.LinkResolves | libkbfs/conflict_resolver.go:1498-1537 | a link text up and down leads where it says |
| RenameLinks.DoubleLinkResolves | libkbfs/conflict_resolver.go:1498-1537 | in one tree the link leads to the node exactly if the old parent is not inside the node |
| RenameLinks.StrangersLinkResolves | libkbfs/conflict_resolver.go:1498-1537 | if the two paths share no directory, the link leads from the top along the node's path below its first directory |
| RenameLinks.LinkInsideItself | libkbfs/conflict_resolver.go:1498-1537 | paths for which the link leads to a child of the node that does not exist |
| DiskJournal.OrdinalRoundTrip | libkbfs/disk_journal.go:53-71 | parsing undoes printing for all 2^64 ordinals |
| DiskJournal.OrdinalTexts | libkbfs/disk_journal.go:58-71 | exactly the texts of sixteen hexadecimal digits are read as ordinals, and writing what was read gives the text in lower case |
| DiskJournal.FileStringsDistinct | libkbfs/disk_journal.go:69-85 | no two files of a journal have the same name |
| DiskJournal.AppendToEntries | libkbfs/disk_journal.go:163-211 | an append stopped after any write short of the last leaves exactly the old list; completed, the list with the entry |
| DiskJournal.AppendToBlank | libkbfs/disk_journal.go:163-211 | the same for the first append, which stops reading as empty once the earliest ordinal is written |
| DiskJournal.GivenOrdinal | libkbfs/disk_journal.go:169-195 | a given ordinal has to follow on, or nothing is written |
| DiskJournal.FirstOrdinal | libkbfs/disk_journal.go:169-211 | a journal may start at any ordinal, and starts at 0 if none is given |
| DiskJournal.AppendFails | libkbfs/disk_journal.go:169-211 | an append fails exactly if no ordinal follows or the earliest one cannot be read, and then leaves at most a stray entry |
| DiskJournal.FailedAppendUnseen | libkbfs/disk_journal.go:169-211 | after a failed append the journal reads as before |
| DiskJournal.ReadBackSpells | libkbfs/bserver_tlf_journal.go:149-170 | whatever the files hold, reading gives a list exactly if they have that entry for every ordinal from earliest to latest, and exactly when the length agrees |
| DiskJournal.AppendStops | libkbfs/disk_journal.go:169-211 | what an append stopped after any number of its writes leaves, for every journal |
| DiskJournal.HoldsReadsBack | libkbfs/disk_journal.go:104-138 | a journal reads back as exactly its entries and has their number as its length |
| DiskJournal.RunIsJournal | libkbfs/disk_journal.go:163-211 | after any run of appends, each stopped anywhere, the files are a journal of exactly the completed ones |
| DiskJournal.RunReadsBack | libkbfs/disk_journal.go:104-225 | it reads back exactly unless nothing completed and some append got past its second write |
| DiskJournal.StoppedFirstAppend | libkbfs/disk_journal.go:196-211 | one append stopped after its second write leaves files that cannot be read |
| DiskJournal.DiskJournal.AppendJournalEntry | libkbfs/disk_journal.go:169-211 | the files after the writes of the plan, and its success |
| DiskJournal.DiskJournal.ReadJournal | libkbfs/bserver_tlf_journal.go:149-170 | the entries from earliest to latest, or failure |
| DiskJournal.DiskJournal.Length | libkbfs/disk_journal.go:213-225 | the 64-bit length |
| BlockRefs.FailureChanges | libkbfs/bserver_tlf_journal.go:496-566 | a list that fails has changed something exactly if a reference was touched before the refused context |
| BlockRefs.DropMeans | libkbfs/bserver_memory.go:88-100 | a list carried out drops exactly the references it names |
| BlockRefs.ArchiveMeans | libkbfs/bserver_memory.go:331-360 | a list carried out archives exactly the references it names |
| BlockRefs.EachMeans | libkbfs/bserver_tlf_journal.go:496-566 | a list of contexts acts on exactly the references named before the first one it stops at, and fails for that one's reason |
| BlockRefs.EachSucceeds | libkbfs/bserver_tlf_journal.go:496-566 | it succeeds exactly if every reference named is held under that context or, for a removal, gone |
| BlockRefs.ValidPutIs | libkbfs/bserver_memory.go:166-188 | a put is made by the creator for themselves, without a nonce, under the hash of the data |
| BlockServerMemory.Server.constructor | libkbfs/bserver_memory.go:124-131 | a new server has no blocks |
| BlockServerMemory.Server.GetBlock | libkbfs/bserver_memory.go:136-164 | the data and key half under a matching context, or the error |
| BlockServerMemory.Server.PutBlock | libkbfs/bserver_memory.go:166-245 | validation, then shutdown, then the block or reference is added or refused |
| BlockServerMemory.Server.AddBlockReference | libkbfs/bserver_memory.go:248-278 | a reference is added to a block with a live one |
| BlockServerMemory.Server.RemoveBlockReferences | libkbfs/bserver_memory.go:280-311 | references are dropped one by one, the block with the last |
| BlockServerMemory.Server.ArchiveBlockReferences | libkbfs/bserver_memory.go:364-379 | references are archived one by one up to the first error |
| BlockServerMemory.Server.ArchiveBlockReference | libkbfs/bserver_memory.go:331-360 | one reference is archived, or the error |
| BlockServerMemory.Server.AllReferences | libkbfs/bserver_memory.go:383-400 | the statuses of all references of the folder |
| BlockServerMemory.PutThenGet | libkbfs/bserver_memory.go:136-245 | what was put is got back, and nothing else changes |
| BlockServerMemory.AddThenGet | libkbfs/bserver_memory.go:136-278 | an added reference can be used |
| BlockServerMemory.RemoveThenGet | libkbfs/bserver_memory.go:136-311 | removed references cannot be used, all others can as before |
| BlockServerMemory.GetExact | libkbfs/bserver_memory.go:136-164 | when a block is got, when it is missing and when the call is refused |
| BlockServerMemory.PutExact | libkbfs/bserver_memory.go:190-245 | when a put of valid arguments is refused, and that it then changes nothing |
| BlockServerMemory.AddExact | libkbfs/bserver_memory.go:248-278 | a reference is added exactly if the block is there with a live reference and the nonce is free or held under the same context; that all are archived is said exactly if none is live |
| BlockServerMemory.ArchiveAllThenAdd | libkbfs/bserver_memory.go:248-379 | once all references of a block are archived none can be added |
| BlockJournal.Journal.Open | libkbfs/bserver_tlf_journal.go:91-114 | opening a directory succeeds exactly if its journal files can be read and replayed, with the references they give |
| BlockJournal.Journal.AllReferences | libkbfs/bserver_tlf_journal.go:340-363 | the statuses of all references, blocks without any left out |
| BlockJournal.Journal.GetData | libkbfs/bserver_tlf_journal.go:327-338 | the data, or shutdown |
| BlockJournal.Journal.GetDataLocked | libkbfs/bserver_tlf_journal.go:240-292 | both files of a block under a matching context, the data checked against the hash |
| BlockJournal.Journal.PutRefEntryLocked | libkbfs/bserver_tlf_journal.go:294-321 | the reference in memory, or nothing under another context |
| BlockJournal.Journal.PutData | libkbfs/bserver_tlf_journal.go:365-434 | data file, key half file, reference and journal files of a valid block, as the writes of the call one by one give them |
| BlockJournal.Journal.AddBlockReference | libkbfs/bserver_tlf_journal.go:436-479 | reference and journal files for a block with a live reference |
| BlockJournal.Journal.RemoveBlockReferences | libkbfs/bserver_tlf_journal.go:481-527 | references dropped one by one, block files with the last, journal files at the end |
| BlockJournal.Journal.ArchiveBlockReferences | libkbfs/bserver_tlf_journal.go:529-569 | references archived one by one, journal files at the end |
| BlockJournal.Journal.ReadJournal | libkbfs/bserver_tlf_journal.go:147-201 | the references that the journal files give, read ordinal by ordinal and replayed, or failure |
| BlockJournal.Journal.ShutDown | libkbfs/bserver_tlf_journal.go:571-585 | the comparison succeeds exactly if the journal files give the references in memory |
| BlockJournal.DiskAt | libkbfs/bserver_tlf_journal.go:407-525 | stopped after k writes, a call has done its first block writes and then the first writes of its append |
| BlockJournal.PutEachMeans | libkbfs/bserver_tlf_journal.go:176-194 | replayed puts never rebind a nonce: a reference keeps its context, and a new one has the first context of its nonce |
| BlockJournal.ReplayExact | libkbfs/bserver_tlf_journal.go:164-200 | any list of entries is replayed exactly if every put and added reference has one context |
| BlockJournal.GetExact | libkbfs/bserver_tlf_journal.go:240-292 | when a block is got, when it is missing and when the call is refused |
| BlockJournal.PutExact | libkbfs/bserver_tlf_journal.go:365-434 | when a put is made, and that one that is not writes and records nothing |
| BlockJournal.AddExact | libkbfs/bserver_tlf_journal.go:436-479 | a reference is added exactly if the block has a live one and the nonce is free or held under the same context; that all are archived is said exactly if the block is known and none is live |
| BlockJournal.ArchiveAllThenAdd | libkbfs/bserver_tlf_journal.go:436-569 | once all references of a block are archived none can be added |
| BlockJournal.JournalFailure | libkbfs/bserver_tlf_journal.go:208-215 | a call fails for its journal exactly if it has something to record and the append fails; memory has then changed and the journal reads as before |
| BlockJournal.RunShows | libkbfs/bserver_tlf_journal.go:340-363 | after any run the references listed, with their statuses, are those that the last call to touch each one gave it |
| BlockJournal.StepJournal | libkbfs/bserver_tlf_journal.go:208-525 | the journal files hold the old entries until the last write of a call, and the new ones from then on |
| BlockJournal.RunJournal | libkbfs/bserver_tlf_journal.go:208-569 | after any run the journal files that the calls wrote hold exactly the entries of the run |
| BlockJournal.StepSync | libkbfs/bserver_tlf_journal.go:147-585 | a call keeps memory and the journal files equal exactly if it is not a list refused midway or an empty archive of an unknown block |
| BlockJournal.SuccessKeepsSync | libkbfs/bserver_tlf_journal.go:147-585 | only failing calls, or archiving nothing, can part them |
| BlockJournal.RunSync | libkbfs/bserver_tlf_journal.go:571-585 | after any run without such calls, reading the files it has written gives the references in memory |
| BlockJournal.RestartFindsRefs | libkbfs/bserver_tlf_journal.go:91-114 | a restart after such a run finds the server as it was |
| BlockJournal.RefusedRemovalDesyncs | libkbfs/bserver_tlf_journal.go:496-510 | a removal refused at its second context parts them |
| BlockJournal.RefusedRemovalLoses | libkbfs/bserver_tlf_journal.go:496-525 | after that removal and one of the remaining reference, a restart finds the first reference without its block |
| BlockJournal.RunStored | libkbfs/bserver_tlf_journal.go:365-527 | after any run every referenced block has both files, with data that hashes to its ID |
| BlockJournal.EmptiedIsGone | libkbfs/bserver_tlf_journal.go:511-521 | both files of a block go with its last reference, and those of no other block |
| BlockJournal.Interruption | libkbfs/bserver_tlf_journal.go:147-527 | stopped after any write but the last, a call leaves a disk that reads as the references of before the call, exactly unless nothing was ever logged and the earliest ordinal is written; their blocks are there exactly unless a last reference was going |
| BlockJournal.EventsReplay | libkbfs/bserver_tlf_journal.go:91-569 | after any run of calls, stops and restarts, the journal files hold exactly what the completed calls logged, and the server is gone exactly if a stop came in the very first append between its second and last write; memory holds the same if since the last restart no list was refused midway and no unknown block archived with no references |
| BlockJournal.EventsPart | libkbfs/bserver_tlf_journal.go:481-585 | the first such call since a restart does part memory and journal |
| BlockJournal.HappenStored | libkbfs/bserver_tlf_journal.go:365-527 | a call, stop or restart leaves every block that the journal has references to, exactly if it does not remove one that the journal then still has references to |
| BlockJournal.LosesInSync | libkbfs/bserver_tlf_journal.go:481-525 | while memory and journal agree, that takes a stop in the middle of removing a last reference |
| BlockJournal.EventsStored | libkbfs/bserver_tlf_journal.go:365-527 | in every run, refused lists included, whose events lose no block in this way, all blocks referenced in memory or in the journal are there |
| BlockJournal.InterruptedRemoval | libkbfs/bserver_tlf_journal.go:511-525 | a block put, and a removal of its reference stopped after the block files are gone: the reference is back |
| BlockJournal.InterruptedFirstPut | libkbfs/bserver_tlf_journal.go:407-434 | the very first put stopped after its fourth write: the server does not start again |
| BlockServers.StepRefines | libkbfs/bserver_tlf_journal.go:323-569 | one call on related servers: same answer and related again, exactly if it is not a put that changes a key half |
| BlockServers.RunRefines | libkbfs/bserver_tlf_journal.go:323-569 | the servers stay related over any run, failing calls included |
| BlockServers.RunAnswers | libkbfs/bserver_tlf_journal.go:323-569 | after any run the same references, statuses, and answers to any next call |
| BlockServers.SameReferences | libkbfs/bserver_tlf_journal.go:340-363 | the lists of all references are equal |
| BlockServers.ChangedHalfCanComeUp | libkbfs/bserver_tlf_journal.go:382-405 | a run after which only the journal accepts a put |
| DirtyBlocks.DirtyBlockCache.constructor | libkbfs/dirty_bcache.go:95-112 | counters at zero, buffer at its minimum |
| DirtyBlocks.DirtyBlockCache.AcceptNewWrite | libkbfs/dirty_bcache.go:242-268 | a write is let in exactly below the buffer size; a slow one halves it, not below the minimum |
| DirtyBlocks.DirtyBlockCache.UpdateUnsyncedBytes | libkbfs/dirty_bcache.go:370-382 | unsynced, total and maybe syncing bytes move |
| DirtyBlocks.DirtyBlockCache.BlockSyncFinished | libkbfs/dirty_bcache.go:394-402 | unsynced bytes fall, syncing bytes too unless negative |
| DirtyBlocks.DirtyBlockCache.SyncFinished | libkbfs/dirty_bcache.go:406-426 | total falls and the buffer grows up to its maximum |
| DirtyBlocks.DirtyBlockCache.Shutdown | libkbfs/dirty_bcache.go:438-462 | succeeds exactly if no bytes are left, waiting requests included |
| DirtyBlocks.StepCounts | libkbfs/dirty_file.go:99-320 | a step keeps both differences between counters and blocks exactly if it does not start a block still in the sync or finish an orphan twice |
| DirtyFiles.RunAccounted | libkbfs/dirty_file.go:99-320 | in every run, retries included, syncing bytes are those of syncing blocks, and total less unsynced those of synced ones |
| DirtyFiles.FinishReturns | libkbfs/dirty_file.go:235-274 | at the end both differences are back, and the counters exactly if the bytes charged are those started since the last retry and those still to start |
| DirtyFiles.PlainFinish | libkbfs/dirty_file.go:235-274 | without retry and assimilated bytes, all counters are back exactly if the reported bytes cover those started |
| DirtyFiles.UnreportedBytes | libkbfs/dirty_file.go:145-274 | ten bytes synced without being reported leave the total ten short |
| DirtyFiles.RetryMakesDirty | libkbfs/dirty_file.go:175-207 | after a retry exactly those blocks can be started that were dirty or in the sync and not orphaned, and none is in a sync |
| DirtyFiles.RetrySyncsAgain | libkbfs/dirty_file.go:145-233 | after a retry the blocks that were in the sync can all be started and finished again, in any order and with their sizes, and the sync is then as large as it was without the orphans |
| DirtyRuns.RunLives | libkbfs/dirty_file.go:110-304 | the state of a block after any run is what the steps that name it and the retries make of it alone |
| DirtyRuns.DeferredConserved | libkbfs/dirty_file.go:306-320 | over any run every deferred byte is charged once or still deferred |
| DirtyRuns.StepGrows | libkbfs/dirty_file.go:175-207 | the sync buffer keeps its limit and never shrinks; only a retry that gives up a large synced orphan makes it grow, by at least each such orphan |
| DirtyRuns.FinishGrows | libkbfs/dirty_bcache.go:406-426 | a finished sync makes the buffer grow by its size, up to the limit, exactly if it is large enough |
| DirtyRuns.SettledForGood | libkbfs/dirty_file.go:235-274 | a sync that was finished leaves nothing to settle or assimilate |
| DirtyRuns.OrphansDoNotBlock | libkbfs/dirty_file.go:235-262 | orphans neither keep a sync from finishing nor are finished by it |
| DirtyRuns.OthersBlock | libkbfs/dirty_file.go:244-262 | any other block but the top one that is still syncing keeps the sync from finishing |
| SharedCache.SharedRunBalances | libkbfs/dirty_file.go:99-320 | however the steps of several files on one cache interleave, syncing bytes are the sum of their syncing blocks, and total less unsynced the sum of their synced ones |
| SharedCache.FinishBalances | libkbfs/dirty_file.go:235-274 | the end of a file's sync gives back exactly what that file has in the counters |
| SharedCache.AllFinished | libkbfs/dirty_file.go:235-274 | when all files have finished, both are back where they were, and the total and unsynced bytes exactly if what the files charged, less what they settled, and the writes let in come to nothing |
| SharedCache.SharedRunTotal | libkbfs/dirty_file.go:99-320 | in every shared run the total has moved by the writes let in and by the sum over the files of what each charged and settled |
| SharedCache.ShutdownPasses | libkbfs/dirty_bcache.go:438-462 | after a shared run from zero, the test at shutdown passes exactly if these and the waiting requests come to nothing |
| DirtyFiles.DirtyFile.constructor | libkbfs/dirty_file.go:85-91 | a new dirty file has no blocks and no bytes |
| DirtyFiles.DirtyFile.UpdateNotYetSyncingBytes | libkbfs/dirty_file.go:99-104 | reported bytes go to file and cache |
| DirtyFiles.DirtyFile.SetBlockDirty | libkbfs/dirty_file.go:110-121 | the block is copied from now on; whether it needs caching and is in a sync |
| DirtyFiles.DirtyFile.SetBlockNotDirty | libkbfs/dirty_file.go:123-131 | the block needs a copy again |
| DirtyFiles.DirtyFile.SetBlockSyncing | libkbfs/dirty_file.go:145-173 | a dirty block starts syncing with its size, others fail |
| DirtyFiles.DirtyFile.SetBlockSynced | libkbfs/dirty_file.go:209-233 | a syncing or orphaned block is done, one that was reset is passed over, others fail |
| DirtyFiles.DirtyFile.SetBlockOrphaned | libkbfs/dirty_file.go:295-304 | the mark on a known block |
| DirtyFiles.DirtyFile.AddDeferredNewBytes | libkbfs/dirty_file.go:306-310 | deferred bytes add up |
| DirtyFiles.DirtyFile.AssimilateDeferredNewBytes | libkbfs/dirty_file.go:312-320 | deferred bytes go to the cache |
| DirtyFiles.DirtyFile.ResetOne | libkbfs/dirty_file.go:180-205 | one block leaves the sync and takes its bytes along |
| DirtyFiles.DirtyFile.ResetSyncingBlocksToDirty | libkbfs/dirty_file.go:175-207 | in any order, orphans are dropped, all others are dirty again, and the counters lose their sums |
| DirtyFiles.DirtyFile.FinishSync | libkbfs/dirty_file.go:235-274 | succeeds exactly if no block but the top one is still syncing, whatever the order |
| RevisionRanges.CutOffIsEarliest | libkbfs/folder_block_manager.go:752-774 | the range ends at the earliest revision that passes the threshold, so without its newest revision it is within it |
| RevisionRanges.LeastIsCutOff | libkbfs/folder_block_manager.go:758-766 | the least revision that starts early enough is that one, in whatever order they are looked at |
| Reclamation.FolderBlockManager.GetMostRecentOldEnoughAndGCRevisions | libkbfs/folder_block_manager.go:607-668 | paging finds the most recent old enough revision and the last one reclaimed |
| Reclamation.MostRecentOldIs | libkbfs/folder_block_manager.go:604-668 | the revision is old enough and none after it is |
| Reclamation.FolderBlockManager.GetUnreferencedBlocks | libkbfs/folder_block_manager.go:675-777 | the pointers of the range up to the cut-off, and whether that is all |
| Reclamation.FolderBlockManager.WalkBack | libkbfs/folder_block_manager.go:696-750 | paging neither skips nor repeats a revision, and notes where each starts |
| Reclamation.FolderBlockManager.Shorten | libkbfs/folder_block_manager.go:753-766 | the revision to stop at |
| Reclamation.GatherUnreferenced | libkbfs/folder_block_manager.go:720-734 | the unreferenced and replaced pointers of a revision, gc operations and self-updates apart |
| Reclamation.UnreferencedIs | libkbfs/folder_block_manager.go:720-734 | a pointer is listed for a revision exactly if an operation of it, not of a reclamation, unreferences it or replaces it by another |
| Reclamation.UnreferencedCounts | libkbfs/folder_block_manager.go:720-734 | and as often as its operations do |
| Reclamation.FindCovered | libkbfs/folder_block_manager.go:642-651 | what the last gc operation of a revision covers |
| Reclamation.LastCovers | libkbfs/folder_block_manager.go:642-651 | what a revision covers is what its last gc operation says |
| Reclamation.DecideRange | libkbfs/folder_block_manager.go:880-925 | a round takes a range right after the last, of at most 100 revisions, and at most 100 pointers but for its newest revision |
| Reclamation.DecideStops | libkbfs/folder_block_manager.go:752-774 | and stops only for more than a hundred pointers, after a hundred revisions, or where they are too new |
| Reclamation.CompleteMeans | libkbfs/folder_block_manager.go:877-925 | a round is complete exactly if it does not stop before the revision it takes as old enough, and then it hands over all pointers left up to that one |
| Reclamation.RoundRecords | libkbfs/folder_block_manager.go:811-926 | a round loses no revision written meanwhile; if it reclaims, it adds one whose only operation says how far it got and which blocks have no references left |
| Reclamation.IncompleteGoesOn | libkbfs/folder_block_manager.go:794-809 | after an incomplete round another is always necessary |
| Reclamation.FolderBlockManager.IsQRNecessary | libkbfs/folder_block_manager.go:794-809 | the head changed, the last round was incomplete, or the head became old enough |
| Reclamation.FolderBlockManager.DoReclamation | libkbfs/folder_block_manager.go:811-926 | a round deletes and records what was decided, and remembers itself |
| Reclamation.RunTiles | libkbfs/folder_block_manager.go:670-926 | after any run of writes and rounds, the pointers deleted are exactly those unreferenced up to the last revision reclaimed, each revision once |
| Reclamation.RunDeletes | libkbfs/folder_block_manager.go:670-926 | after any run of writes and rounds a pointer was deleted exactly if an operation of a reclaimed revision left it unreferenced |
| Reclamation.WriteDropsOld | libkbfs/folder_block_manager.go:720-734 | a write is listed with the block it replaces and not with the one it makes |
| Reclamation.WorkIsNecessary | libkbfs/folder_block_manager.go:794-809 | at any later time limit, work is overlooked exactly if there is no new revision, the head is not old enough and older revisions give pointers or are too many; never at the same limit or once the head is old |
| Reclamation.ReclaimsWork | libkbfs/folder_block_manager.go:877-925 | a round reclaims exactly if the old enough revisions not reclaimed yet are too many or one left pointers |
| Reclamation.OverlookedWork | libkbfs/folder_block_manager.go:794-809 | three revisions and two time limits, between which work is overlooked |
| TlfHandles.MakeHandle | libkbfs/bare_tlf_handle.go:72-134 | succeeds exactly with writers, none of them public, and a public reader only alone; the lists are sorted |
| TlfHandles.ResolveList | libkbfs/bare_tlf_handle.go:207-219 | the users found and the assertions left, in any order |
| TlfHandles.ToSortedList | libkbfs/bare_tlf_handle.go:221-233 | the sorted list of a set |
| TlfHandles.ResolveAssertions | libkbfs/bare_tlf_handle.go:237-255 | the resolved handle |
| TlfHandles.ResolvedUnique | libkbfs/bare_tlf_handle.go:237-255 | there is only one |
| TlfHandles.Confluent | libkbfs/bare_tlf_handle.go:235-255 | resolving two batches that agree, one after the other, is resolving both at once |
| TlfHandles.RunConfluent | libkbfs/bare_tlf_handle.go:235-255 | so it is for any run of batches |
| TlfHandles.AccessIsKept | libkbfs/bare_tlf_handle.go:136-255 | nobody loses access, except exactly if an unresolved writer of a public folder is the public user |
| TlfHandles.PublicWriterShutsOut | libkbfs/bare_tlf_handle.go:237-255 | a handle and a batch after which a user cannot read any more |
| TlfHandles.RunKeepsAccess | libkbfs/bare_tlf_handle.go:136-255 | over any run without the public user nobody loses access |
| TlfHandles.RunKeepsMarks | libkbfs/bare_tlf_handle.go:237-255 | no run changes the conflict and finalized marks, or anything of a finalized folder |
| KeyBundles.XorKeys | libkbfs/crypto_common.go:205-211 | bytewise exclusive or |
| KeyBundles.UnmaskUndoesMask | libkbfs/crypto_common.go:205-223 | unmasking undoes masking |
| KeyBundles.KeyForExact | libkbfs/key_manager.go:172-211 | when a device gets a key, and that it is the two halves put together |
| KeyBundles.TLFKeyBundles.FillInDeviceInfo | libkbfs/key_bundle.go:50-103 | new devices get an entry and a half, existing entries stay |
| KeyBundles.TLFKeyBundles.FillInDevicesAndServerMap | libkbfs/key_bundle.go:207-227 | so for all users of a side, in any order |
| KeyBundles.TLFKeyBundles.FillInDevices | libkbfs/key_bundle.go:229-266 | the bundles, ephemeral keys and server halves are those of the rekey |
| KeyBundles.RekeySound | libkbfs/key_bundle.go:229-266 | without users on both sides every device with an entry can get the key |
| KeyBundles.RekeyExact | libkbfs/key_bundle.go:220-224 | with fresh halves exactly the writer devices of a user with new reader devices cannot |
| KeyBundles.BothSidesLoses | libkbfs/key_bundle.go:220-224 | a rekey after which a listed device has no server half |
| KeyBundles.EntriesNeverChange | libkbfs/key_bundle.go:62-66 | entries never change in a run of rekeys |
| KeyBundles.RunGivesAccess | libkbfs/key_bundle.go:229-266 | a device listed in any rekey of a run can get the key from then on, by its index and its server half |
| BlockPadding.NextPowerOfTwo | libkbfs/crypto_common.go:364-384 | the least power of two above the length and at least 256, in 32 bits |
| BlockPadding.FillIsOnes | libkbfs/crypto_common.go:376-381 | the five steps set all bits below the highest |
| BlockPadding.PowerTest | libkbfs/crypto_common.go:370-373 | the test for a power of two |
| BlockPadding.RoundUpIsLeast | libkbfs/crypto_common.go:364-384 | no smaller power of two will do |
| BlockPadding.PadBlock | libkbfs/crypto_common.go:389-414 | length, block and random bytes |
| BlockPadding.DepadBlock | libkbfs/crypto_common.go:417-430 | the block, or failure if it is short |
| BlockPadding.DepadUndoesPad | libkbfs/crypto_common.go:388-430 | depadding undoes padding exactly for blocks below 2^32 bytes |
| BlockPadding.PaddedLength | libkbfs/crypto_common.go:389-414 | the padded length is 4 and that power of two |
| BlockPadding.PaddingIsDrawn | libkbfs/crypto_common.go:389-414 | the block follows its length, and every byte after it is random |
| BlockPadding.DepadExact | libkbfs/crypto_common.go:417-430 | bytes are refused exactly if they hold no length or are too short for it and the length is none of the last four; then all there is is taken |
| BlockPadding.OverflowingLength | libkbfs/crypto_common.go:417-430 | bytes too short for the length they announce that are not refused |
| BlockSplitter.FindMaxSize | libkbfs/bsplitter_simple.go:20-75 | the size found in at most ten attempts, or failure |
| BlockSplitter.ConvergeHits | libkbfs/bsplitter_simple.go:40-70 | blocks of a size found are encoded in exactly the desired size |
| BlockSplitter.ConstantOverheadConverges | libkbfs/bsplitter_simple.go:40-65 | with a constant overhead a size is found |
| BlockSplitter.FullBlockFits | libkbfs/bsplitter_simple.go:22-75 | for a power of two a full block is padded to exactly that size and 4 |
| BlockSplitter.FileBlock.CopyUntilSplit | libkbfs/bsplitter_simple.go:79-113 | what is copied, what stays, what is zero, and that data is left only when the block is full |
| HandleTables.FileTable.constructor | dokan/pointertable.go:18-22 | an empty table |
| HandleTables.FileTable.StoreFile | dokan/pointertable.go:63-82 | the search ends at the nearest free non-zero handle, across overflow, if there is one, and the file is stored there |
| HandleTables.DistanceIsLeast | dokan/pointertable.go:66-75 | the distance by which the nearest free handle is chosen is the number of steps of the counter, which goes round and skips zero |
| HandleTables.HandleStays | dokan/pointertable.go:63-97 | from store to free a handle gives its file and is given to no other |
| HandleTables.InUseExactly | dokan/pointertable.go:63-97 | after any run from an empty table a handle is in use exactly if it was stored and not freed since |
| HandleTables.FileSystemTable.Store | dokan/pointertable.go:28-41 | the first free slot, or a new one |
| KbfsPaths.SplitUndoesJoin | fsrpc/path.go:48-59 | splitting a joined path gives its components |
| KbfsPaths.CleanComponents | fsrpc/path.go:48-67 | splitting the cleaned text gives the components it leads through |
| KbfsPaths.OfComponentsIs | fsrpc/path.go:70-113 | the path made from components is the one with these components, and there is one exactly if they begin right |
| KbfsPaths.InvalidIsEmpty | fsrpc/path.go:115-118 | the empty string stands for the invalid path and no other |
| KbfsPaths.RoundTrip | fsrpc/path.go:69-135 | reading back the text of a path with clean names gives the path |
| KbfsPaths.ToStringIsClean | fsrpc/path.go:69-135 | the text of a path read from any text is that text cleaned |
| KbfsPaths.JoinAppends | fsrpc/path.go:184-229 | joining appends the name to the components |
| KbfsPaths.JoinInverse | fsrpc/path.go:138-229 | joining a name and splitting it off are inverse to each other |

## Left out

- Fetching metadata, blocks and keys, the servers behind them, and everything about users and devices (`md_ops.go`, `key_manager.go`, `keybase_daemon*.go`): calls outside.
- Reading and writing of files and directories (`folder_branch_ops.go`, `folder_block_ops.go`): only the accounting of dirty bytes is modelled.
- The rest of conflict resolution: identifying types of chains, comparing chains for conflicts, finding paths of chains, `swapUnmergedBlock` and `updateOps` of the actions, writing the result (`conflict_resolver.go`, `cr_chains.go`).
- That no cycle of directories is left after conflicting renames: each rename is checked only against the merged path of its own new parent.
- Locking, goroutines, channels and cancellation; each method is one atomic step. Delays of writers (`calcBackpressure`, `processPermission`): their arithmetic is in floating point on times.
- Failing disk operations other than a stop between two writes, and splaying of block directories. Removing a block directory, and writing one file, is one step.
- Encoding of journal entries and of blocks (a codec), encryption (an encrypted half opens exactly with its key pair and device), and hashes (block IDs are assumed free of collisions only in the comparison of the two block servers).
- Extensions of folder handles other than their presence, and parsing of folder names.
- FUSE and Dokan servers, and the command line tools.
- DiskJournal.DiskJournal.ReadJournal: the loop of the code does not end for a latest ordinal of 2^64 - 1, which needs as many entries; the model's counter does not overflow.
- BlockJournal.RunSync: runs are of fewer than 2^64 calls; after as many entries the journal has no ordinals left and refuses to append. The other runs of the journaled server are bounded in the same way.
- BlockServers.StepRefines: requires a journal with room for one more entry, without which only the journaled server fails.
- ChainIndex.CrChains.ApplyUpdate: requires a pointer that is current or was never part of a node, and a new one that is not mentioned yet, as the updates of a folder's metadata are; for pointers that come back the code makes a second chain for a node, which the nodes of the model cannot say.
- ChainIndex.CrChains.ApplyAll: requires a list of such updates, for the same reason.
- ChainIndex.CrChains.MakeChainForOp: requires an operation with such updates, for the same reason.
- ChainBuild.NewCRChains: requires a branch of such operations, for the same reason.
- BlockSplitter.FindMaxSize: a size outside the data made for it stops the code with a panic and is a failure in the model; a desired size of zero is not modelled.
- HandleTables.FileTable.StoreFile: requires a free handle, without which the search does not end.
- KbfsPaths.CleanComponents: paths are those of Unix, with characters for bytes.
