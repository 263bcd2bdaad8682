# Orca state and wakefulness, modelled in Dafny

This project models the parts of Orca where a mistake loses a user's terminal,
session or backup, or leaves the machine asleep or awake at the wrong time, and
proves what those parts promise. `dafny verify dfyconfig.toml` checks all of it.

| file | what it models |
|---|---|
| `SaveProtocol.dfy` | the debounced save: one timer, a chain of async writers, a generation counter, a synchronous flush |
| `PaneLayout.dfy`, `LayoutNormalizer.dfy`, `SessionNormalizer.dfy` | the normaliser that gives every terminal pane a stable id and carries its records, leases and acknowledgements along |
| `PtyIds.dfy`, `PtyBindings.dfy`, `WriteRule.dfy`, `RecordRule.dfy`, `WriteBack.dfy`, `BindingRuns.dfy`, `LeaseRules.dfy`, `BindingStore.dfy` | which terminal bindings survive stale session writes, and which must stay dead with their SSH leases |
| `AwakeMachine.dfy`, `AwakeProofs.dfy`, `AwakeRelease.dfy`, `StaleTimer.dfy`, `AwakeService.dfy` | the keep-awake controller and its two child-process assertions |
| `Backups.dfy` | the ring of backups and recovery from it |
| `IdentityMigration.dfy`, `MigrationStore.dfy` | re-keying everything after a worktree's folder is renamed |
| `ScriptLines.dfy` | the two scanners over line endings in hook scripts, and the runner scripts built from them |
| `BoundedSearch.dfy`, `SearchLimits.dfy` | the bounded depth-first search of a possibly cyclic accessibility tree, and what its two limits cost |
| `Argv.dfy` | the command line parser and its repeatable flag |
| `Wrappers.dfy`, `Sequences.dfy` | an option type; sequences without repetition |

A state machine is a datatype with a step function; its invariants and theorems
are lemmas over every step and every run. Where the program is an object whose
methods update fields, a class has those fields, and each method is proved to do
what the step function says. Loops are loops, proved against a function.

## What the proofs show about the code

Some promises hold only under a condition, which is then stated exactly, as an "if
and only if".

* `flushOrThrow` forgets the chain of writers (persistence.ts:3252). It is safe
  exactly when no writer is queued on the chain. Otherwise there is a run, with
  no fault and no further flush, in which an older snapshot replaces a newer one
  on disk (`FlushIsSafeIffNothingIsQueued`), and such a state can be reached
  without any fault (`CarelessFlushIsReachable`). A flush that fails leaves unsaved
  mutations with nothing on its way to save them, until the next save
  (`FaultUncoversIff`, `NextSaveRestoresDurability`).
* A pane id taken over from the preferred layout may already be in use elsewhere in
  the tree. The normaliser then yields two panes with one id
  (`AdoptedIdCanClash`), and the next pass changes the layout again; it reaches
  a fixed point in one pass exactly when that does not happen
  (`SecondPassIsIdentityIffNoClash`).
* "Some matching lease is alive" rules out a dead matching lease exactly when the
  SSH target is known (`LiveLeaseExcludesDeadIffTargetKnown`).
* A session write that binds a neighbour of a pane, but not the pane itself, drops
  the pane's binding, however fresh, exactly when no live lease backs it or the
  pane has no place in the tree (`PartialWriteDropsUnleasedPane`).
* A lease keeps a legacy pane id exactly in the one case `Exposed` names
  (`RemappedLeaseIsStableUnlessExposed`), and the case arises
  (`LeaseCanBeExposed`).
* Writing the stored session back leaves the store, leases included, as it is exactly
  when no adopted id clashed in the write before, and no unbound tab stands behind
  a bound one of its own id (`WriteBackIsIdentityIff`).
* `isWakeEligible` accepts a status at the very millisecond it expires, but
  `scheduleStaleTimer` arms nothing for it. The machine is kept awake with no timer
  exactly when all statuses that count expire right then (`HeldWithoutTimerIff`), as
  they do when a stale timer fires exactly on time with no other status left
  (`TimerOnTimeHoldsForever`); the decision of a refresh stays right until the
  timer is due in every other case (`DecisionStaysRightIff`).
* Re-keying a worktree is a renaming exactly when what is said of the worktree is
  kept under it (`MigrationIsRenamingIff`), and frees the old id under almost the
  same condition (`MigrationFreesOldIdIff`). It changes something without a save
  exactly when a stray lineage is all there is to put right (`SaveIsLostIff`).
* The limits of `first_descendant`, 1200 nodes and depth 64, can hide a match. The
  answer is the unlimited one on all graphs of n nodes exactly when n is at most 65
  (`ExactForSizeIff`), and so is every match within the depth limit found
  (`ExactWithinDepthForSizeIff`). Among graphs of up to 1200 nodes it is the
  unlimited one on all those whose walks without repetition have at most k edges
  exactly when k is at most 64 (`ExactForTrailsIff`, for any two limits).
* `--f v` and `--f=v` mean the same in every command line exactly when `f` has no
  `=` and is not boolean, and `v` does not look like a flag (`ExchangeableIff`).

## Model

| member | source | states |
|---|---|---|
| SaveProtocol.StepKeepsInv | src/main/persistence.ts:3112-3254 | every step but a flush over a queued writer keeps the writers chained one after another, `pendingWrite` the last of them, and contents in order; the disk never goes back |
| SaveProtocol.DisciplinedRunsAreMonotone | src/main/persistence.ts:3112-3254 | over every run, faults included, that never flushes while a writer is queued, the published version never goes back |
| SaveProtocol.FaultFreeRunsStayCovered | src/main/persistence.ts:3112-3194 | in fault-free runs the newest state is on disk, or a timer or the last writer is on its way to publish it |
| SaveProtocol.QuiescentDiskEqualsMemory | src/main/persistence.ts:3112-3254 | from the start, whenever no timer is armed and no writer is pending, the disk equals memory |
| SaveProtocol.FaultUncoversIff | src/main/persistence.ts:3170-3254 | a failing flush leaves memory covered if and only if the disk already equals it; a failing writer uncovers it if and only if it was the last and nothing else is on its way |
| SaveProtocol.NextSaveRestoresDurability | src/main/persistence.ts:3112-3254 | whatever failed before, after the next save every fault-free run is durable again |
| SaveProtocol.OvertakenNeverPublishes | src/main/persistence.ts:3172-3178 | in every legal run, careless flushes and faults included, a writer whose generation was overtaken never changes the disk |
| SaveProtocol.FlushOvertakes | src/main/persistence.ts:3249-3253 | a flush, even one that fails, silences for good every writer that has captured its generation |
| SaveProtocol.FlushIsSafeIffNothingIsQueued | src/main/persistence.ts:3120-3131 | after a flush no run with faults can make the disk go back if no writer was queued; if one was, a run with no fault and no flush does |
| SaveProtocol.CarelessFlushIsReachable | src/main/persistence.ts:3112-3254 | from the start, two saves without any fault lead to a state after which a flush lets the disk go back |
| SaveProtocol.Store.MutateAndScheduleSave | src/main/persistence.ts:3112-3116 | a mutation re-arms the one timer: the program's step is the machine's |
| SaveProtocol.Store.OnWriteTimer | src/main/persistence.ts:3116-3132 | the timer chains a new writer behind the pending one and becomes pending |
| SaveProtocol.Store.StartWriter | src/main/persistence.ts:3144-3148 | the writer captures the generation |
| SaveProtocol.Store.WriteTempFile | src/main/persistence.ts:3153-3171 | the writer snapshots memory into its temp file |
| SaveProtocol.Store.CheckAndRename | src/main/persistence.ts:3172-3179 | the snapshot is published exactly when the generation still holds |
| SaveProtocol.Store.FailWriter | src/main/persistence.ts:3170-3184 | a failing write or rename publishes nothing |
| SaveProtocol.Store.SettleWriter | src/main/persistence.ts:3126-3130 | a settled writer clears `pendingWrite` exactly when it is still the pending one |
| SaveProtocol.Store.FlushOrThrow | src/main/persistence.ts:3244-3254 | the flush disarms the timer, bumps the generation, forgets the chain, and writes memory to disk or throws |
| PaneLayout.FirstLeafIdIsHead | src/main/persistence.ts:1285-1290 | the first leaf is the head of the leaf order |
| PaneLayout.ContainsLeafIdIsMembership | src/main/persistence.ts:1292-1300 | the tree search finds exactly the leaves of the leaf order |
| PaneLayout.LeafCountsAreMultiplicities | src/main/persistence.ts:1262-1273 | the running counts are the multiplicities in the leaf order |
| PaneLayout.AssignLeafIdsLoop | src/main/persistence.ts:1562-1582 | the position loop computes the assignment the proofs are about, drawing ids from the supply |
| PaneLayout.CloneRenames | src/main/persistence.ts:1313-1331 | cloning keeps the shape, maps each carried leaf, and gives all others distinct fresh ids |
| PaneLayout.RenameTreeRenames | src/main/persistence.ts:1556-1585 | same shape; position by position the new id is the retained, the adopted or a fresh one; the id map is exactly the renaming of the uniquely named leaves |
| PaneLayout.DistinctIffNoClash | src/main/persistence.ts:1562-1585 | the new ids are pairwise distinct if and only if no adopted id is retained or adopted elsewhere |
| PaneLayout.AdoptedIdCanClash | src/main/persistence.ts:1577-1581 | a concrete tree that ends with one id on two panes |
| PaneLayout.DuplicatesForceChange | src/main/persistence.ts:1568-1571 | a tree with duplicated ids is always changed |
| LayoutNormalizer.RemapEntriesLoop | src/main/persistence.ts:1333-1352 | in any enumeration order, exactly the carried keys appear, each with the value of an entry that became it |
| LayoutNormalizer.NormalizeLayout | src/main/persistence.ts:1520-1647 | the whole pass over a layout, its loops included, yields an outcome of the pass, in whatever order each record is enumerated |
| LayoutNormalizer.OutcomesAgree | src/main/persistence.ts:1333-1352 | all outcomes have the same tree, pointers, id map, supply, `changed` and record keys as the pass the proofs are about; without a clash there is no other |
| LayoutNormalizer.NormalizeRenamesTree | src/main/persistence.ts:1520-1585 | for a layout with a root, its own or the preferred one: same shape, every leaf stable, renamed position by position |
| LayoutNormalizer.NormalizeIsDistinct | src/main/persistence.ts:1520-1585 | the leaves are pairwise distinct if and only if no adopted id clashes |
| LayoutNormalizer.NormalizeMovesRecords | src/main/persistence.ts:1596-1643 | in all four records each value of a uniquely named leaf ends at that leaf's position, and nothing else appears |
| LayoutNormalizer.NormalizeMovesPointers | src/main/persistence.ts:1586-1595 | the active and the expanded leaf stay on their leaf if it has a name of its own; otherwise the active one is null if it was, or else the first leaf, and none is expanded |
| LayoutNormalizer.BorrowedTree | src/main/persistence.ts:1527-1555 | a layout without a tree takes the preferred one's; each pointer keeps its leaf if that tree has it, or else takes the preferred one's if it has that, or else is the first leaf, or none |
| LayoutNormalizer.ChangedIff | src/main/persistence.ts:1520-1647 | `changed` if and only if the tree was taken over, a leaf has a new id, or a pointer or record came out different |
| LayoutNormalizer.NormalIsFixed | src/main/persistence.ts:1616-1625 | a normal layout is returned untouched, whatever is preferred |
| LayoutNormalizer.NormalizeMakesNormal | src/main/persistence.ts:1520-1647 | without a clash one pass makes a layout normal |
| LayoutNormalizer.SecondPassIsIdentityIffNoClash | src/main/persistence.ts:1520-1647 | the second pass draws no id and reports no change if and only if the first had no clash |
| SessionNormalizer.PtyIndexIsExact | src/main/persistence.ts:1688-1701 | a PTY is indexed to a leaf if and only if it is bound to that leaf only |
| SessionNormalizer.IndexPtys | src/main/persistence.ts:1688-1701 | the insert, delete and remember-duplicates loop computes that index in any order |
| SessionNormalizer.SessionPassByTab | src/main/persistence.ts:1649-1712 | every tab, and no other, is normalised by itself from some later point of the id supply |
| SessionNormalizer.NormalizeSessionLayouts | src/main/persistence.ts:1665-1703 | the loop over the tabs yields an outcome of the session pass |
| SessionNormalizer.SessionPassIsDetermined | src/main/persistence.ts:1649-1712 | without a clash that is the session pass the proofs are about |
| SessionNormalizer.NormalSessionIsFixed | src/main/persistence.ts:1649-1712 | a session of normal layouts is left alone and every id map is an identity |
| SessionNormalizer.SecondSessionPassIsIdentity | src/main/persistence.ts:1649-1712 | normalising the output session again, with itself as the prior one, draws no id and changes nothing |
| SessionNormalizer.RemappedLeaseIsStableUnlessExposed | src/main/persistence.ts:1714-1742 | after the remap a lease's leaf id is absent or stable if and only if the lease is not exposed by a layout without a tree |
| SessionNormalizer.LeaseCanBeExposed | src/main/persistence.ts:1714-1742 | a concrete lease and layout for which a legacy leaf id stays |
| SessionNormalizer.SecondRemapKeepsLease | src/main/persistence.ts:1720-1723 | a lease settled by one pass is not touched by any later remap |
| SessionNormalizer.RemapAcknowledgements | src/main/persistence.ts:1810-1857 | each acknowledgement moves with its pane, the latest time winning, and `changed` says exactly whether one moved |
| SessionNormalizer.AcknowledgementsAreFixed | src/main/persistence.ts:1810-1857 | with the maps of a second pass nothing moves |
| LeaseRules.MappedByPosition | src/main/persistence.ts:1562-1585 | the id map takes the id of each uniquely named leaf to the leaf at its position, and maps no other id |
| LeaseRules.LeaseFollowsLeaf | src/main/persistence.ts:1714-1742 | after any write a lease differs in its leaf id at most, and that only if it was a legacy one of a tab that the write lists: it is then the leaf at the position the old one had, or else the one leaf the PTY is bound to, or else absent |
| LeaseRules.PaneKeyFollowsLeaf | src/main/persistence.ts:1810-1857 | the key of an acknowledgement moves if and only if its leaf part is the one, legacy, name of a leaf of its tab; it then names the leaf at that position |
| PtyBindings.MatchImpliesMayReference | src/main/persistence.ts:5183-5254 | whatever strictly matches a lease of the target may reference it, so scrubbing misses nothing |
| LeaseRules.MatchesIffOwn | src/main/persistence.ts:5183-5226 | a lease matches exactly the bindings of its own PTY that its own target, worktree, tab and leaf complete |
| LeaseRules.MayReferenceIffCompletable | src/main/persistence.ts:5228-5254 | it may reference exactly the bindings that it would match with some of its missing contexts filled in |
| LeaseRules.FirstListingIsFirst | src/main/persistence.ts:5540-5598 | the scrub takes a layout to be of the first worktree that lists its tab |
| LeaseRules.LastListingIsLast | src/main/persistence.ts:5043-5049 | the merge takes it to be of the last one |
| PtyBindings.LiveLeaseExcludesDeadIffTargetKnown | src/main/persistence.ts:5183-5226 | with unique leases, a live match excludes a dead one if and only if the target is known |
| PtyBindings.RestoredBindingHasNoDeadLease | src/main/persistence.ts:5055-5072 | no restored binding matches a terminated or expired lease, given unique leases and, on the partial branch, a known target |
| PtyBindings.BindBinds | src/main/persistence.ts:5273-5358 | the spawn write binds tab and leaf, puts the leaf in the tree, and changes no other tab or leaf |
| PtyBindings.BindGrowsTree | src/main/persistence.ts:5315-5358 | the spawn write keeps the tree's leaves in order, appends the leaf only if it was missing, and then makes it the active one; the other records stay |
| PtyBindings.BindTabKeepsOrder | src/main/persistence.ts:5281-5313 | the spawn write keeps each worktree's tabs in number and order, and changes the PTY of the named tab alone |
| PtyBindings.LegacyLeafIsNotBound | src/main/persistence.ts:5315-5358 | a spawn that names no stable leaf changes no layout |
| PtyBindings.MarkedDeadIsScrubbed | src/main/persistence.ts:5444-5477 | after a target's leases are marked dead, exactly the bindings that may reference one of them are gone |
| LeaseRules.ScrubbedTabs | src/main/persistence.ts:5549-5566 | a scrub unbinds exactly the tabs that one of its leases may reference, and changes nothing else about any tab |
| LeaseRules.ScrubbedLayouts | src/main/persistence.ts:5568-5598 | it drops exactly the leaf bindings that one may reference, and changes nothing else about any layout |
| LeaseRules.MarkAllSettles | src/main/persistence.ts:5444-5477 | marking a target detached detaches exactly its leases that are attached; any other state is given to all its leases; leases of other targets, and every other field, stay |
| LeaseRules.MarkOneSettles | src/main/persistence.ts:5479-5506 | marking one lease gives the state to the one of that target and relay id, and to no other |
| LeaseRules.LiveMarksKeepSession | src/main/persistence.ts:5444-5506 | a mark that ends no lease leaves the session alone |
| LeaseRules.RemoveSettles | src/main/persistence.ts:5508-5538 | a removal takes away the leases of the target, or the one of the relay id given, and no others; an id wrapped with another target changes nothing |
| LeaseRules.RemoveScrubs | src/main/persistence.ts:5508-5538 | the session is scrubbed of what the leases that go may reference |
| PtyBindings.WriteInventsNoTabBinding | src/main/persistence.ts:5020-5042 | a tab's binding after a write was incoming or prior in that tab |
| PtyBindings.WriteInventsNoLeafBinding | src/main/persistence.ts:5043-5103 | a leaf's binding after a write was incoming in that tab or prior on that leaf |
| WriteRule.LeafWriteRule | src/main/persistence.ts:4976-5103 | for every session write, tab and leaf: where an incoming binding is renamed to the leaf, one such is there afterwards; elsewhere exactly the prior binding of a live leaf that passes the test of its branch |
| WriteRule.LeafWriteRuleIff | src/main/persistence.ts:4976-5103 | the same as one equivalence, where incoming bindings do not compete for the leaf |
| WriteRule.NoClashIsUnambiguous | src/main/persistence.ts:1562-1582 | they do not, unless an adopted id clashes |
| WriteRule.KnownLeafWriteRule | src/main/persistence.ts:4976-5103 | for a leaf id handed out before, the same read off the write and the prior session alone: the write binds it or a legacy leaf in its place, or the prior binding returns |
| WriteRule.NoClashIsUncontested | src/main/persistence.ts:1562-1582 | without a clash two leaves of the write do not become the same one |
| WriteRule.PartialWriteDropsUnleasedPane | src/main/persistence.ts:5050-5072 | a write that binds a neighbour but not the leaf keeps the leaf's binding if and only if the leaf has a place and a live lease backs it |
| WriteRule.TabWriteRule | src/main/persistence.ts:5020-5042 | for every session write: a tab is bound afterwards if and only if the write says so, or lists it unbound and no matching lease of the prior binding is dead |
| WriteRule.StaleWriteKeepsTab | src/main/persistence.ts:5020-5042 | a session write from before the spawn keeps the tab's binding if and only if no matching lease is dead |
| WriteRule.StaleWriteKeepsLeaf | src/main/persistence.ts:5043-5103 | the same for the leaf's binding, when the incoming tree is missing, holds the leaf, or has a unique legacy id in its place |
| LeaseRules.StaleTabSurvivesIff | src/main/persistence.ts:5020-5042 | it is kept if and only if every lease of the store, its leaf id carried along, that matches the binding is neither terminated nor expired |
| LeaseRules.StaleLeafSurvivesIff | src/main/persistence.ts:5043-5103 | the same for the leaf's binding, whose worktree is the last one that lists the tab |
| RecordRule.RecordWriteRule | src/main/persistence.ts:5077-5103 | for every session write, tab and leaf, and for buffers, scrollback references and titles each: the record holds a text at the leaf if and only if the pass leaves it there, or leaves none, some binding of the tab came back, the leaf is live and the prior record of the same name holds it; tree and pointers are those of the pass |
| RecordRule.PassedRecordRule | src/main/persistence.ts:1596-1643 | what the pass leaves at a leaf of a record is the incoming value of the uniquely named leaf that stood at its position |
| RecordRule.NoRecordIsEmptied | src/main/persistence.ts:5077-5103 | a record that holds nothing after the write is as the pass leaves it, missing or empty |
| RecordRule.WriteKeepsLists | src/main/persistence.ts:4963-5042 | a write stores the worktrees, tabs and layouts that it lists, each worktree's tabs with the same ids in the same order |
| WriteBack.WriteBackIsIdentityIff | src/main/persistence.ts:4963-5110 | writing the stored session back, through normaliser, lease remap and merge, changes nothing if and only if no adopted id clashed in the first write and no unbound tab stands behind a bound one of its id that may be restored |
| WriteBack.DistinctTabsCastNoShadow | src/main/persistence.ts:5020-5042 | in a list of tabs with distinct ids none stands behind another |
| BindingRuns.UpsertSettlesLease | src/main/persistence.ts:5409-5442 | after an upsert there is a lease of that target and relay id, in the given state, without a new legacy leaf id; leases of other ids are unchanged |
| LeaseRules.UpsertKeepsContexts | src/main/persistence.ts:5409-5442 | a lease that an upsert finds keeps each context the upsert leaves out and takes each it gives |
| LeaseRules.UpsertAppends | src/main/persistence.ts:5409-5442 | one that it does not find is appended, its PTY made local to the target |
| BindingRuns.LeasesStayUnique | src/main/persistence.ts:5409-5533 | over every run of operations no two leases share a target and relay id |
| BindingRuns.LeasesStaySettled | src/main/persistence.ts:1714-1742 | leases without legacy leaf ids stay so over every run, and every later write tests bindings against them as they are |
| LeaseRules.OperationKeepsDead | src/main/persistence.ts:5409-5538 | an operation that does not name a terminated or expired lease with another state leaves it in its state or removes it |
| LeaseRules.RenewingRenews | src/main/persistence.ts:5409-5538 | one that does, and finds or brings the lease, changes its state |
| LeaseRules.DeadLeaseStaysDead | src/main/persistence.ts:5409-5538 | over every run a terminated or expired lease stays so or is removed, unless an upsert or a mark to another state, not a mark of its target as detached, names it |
| BindingRuns.ReachableWritesRestoreNoDeadBinding | src/main/persistence.ts:5043-5103 | so after any run from any store with unique leases, a leaf binding that a write does not carry but leaves behind, its target known, is matched by no dead lease |
| BindingRuns.OperationKeepsBoundIff | src/main/persistence.ts:4963-5598 | each operation, removals and re-keyings of worktrees and every session write whose own bindings do not compete for the leaf among them, keeps a binding if and only if it does not displace it |
| BindingRuns.UndisturbedBindingStays | src/main/persistence.ts:4963-5598 | a binding outlives every run of operations, session writes stale, partial or complete among them, none of which displaces it |
| BindingRuns.OperationKeepsAbsent | src/main/persistence.ts:4963-5598 | no operation brings back an absent binding unless it carries it itself |
| BindingRuns.DeadBindingStaysGone | src/main/persistence.ts:5444-5538 | once a lease is marked dead, with its target's others or alone, or removed, no run of operations revives a binding that may reference it, unless one carries the PTY to that tab |
| BindingRuns.RekeyedBindingFollows | src/main/persistence.ts:4304-4338 | a binding follows its worktree to the new id |
| BindingStore.MergeTabsLoop | src/main/persistence.ts:5020-5042 | the loop over tabs is the merge the rules are about |
| BindingStore.MergeLayoutsLoop | src/main/persistence.ts:5043-5102 | the loop over layouts is the merge the rules are about |
| BindingStore.ScrubTabsLoop | src/main/persistence.ts:5549-5566 | the loop clears exactly the referenced tabs |
| BindingStore.MarkLeasesLoop | src/main/persistence.ts:5446-5470 | the marks, the leases to clear, and whether anything changed |
| BindingStore.Store.SetLocalWorkspaceSession | src/main/persistence.ts:4963-5110 | the whole write, pass included: session and leases are those of an outcome of the pass, and without a clash those of the write operation of the runs above |
| BindingStore.Store.SetNormalizedSession | src/main/persistence.ts:4976-5110 | given any outcome of the pass, the lease remap and the two merges give the new session and leases |
| BindingStore.Store.PersistPtyBinding | src/main/persistence.ts:5267-5365 | either the call throws and session and disk are as before, or the binding is in memory and the same session is on disk |
| BindingStore.Store.ClearBindingsForLeases | src/main/persistence.ts:5540-5598 | the scrubbed session, and `changed` exactly when it differs |
| BindingStore.Store.UpsertSshRemotePtyLease | src/main/persistence.ts:5409-5442 | one lease for each target and relay id is added or updated, and flushed; a foreign id changes nothing, in memory or on disk |
| BindingStore.Store.MarkSshRemotePtyLeases | src/main/persistence.ts:5444-5477 | the bulk mark operation of the runs above, flushed exactly when it changed anything |
| BindingStore.Store.MarkSshRemotePtyLease | src/main/persistence.ts:5479-5506 | the single mark operation, including the branch where the state is already right; flushed exactly when it changed anything |
| BindingStore.Store.RemoveSshRemotePtyLeases | src/main/persistence.ts:5508-5538 | bindings are scrubbed before the leases go, for one PTY or for the whole target; flushed exactly when a lease went |
| BindingStore.Store.UpdateConnections | src/main/persistence.ts:5256-5259 | the worktrees' connections, read from the repositories, may change at any time in the runs above |
| BindingStore.Store.RemoveWorkspaceOwner | src/main/persistence.ts:2054-2132 | the owner's tabs go, and the layout of each |
| BindingStore.Store.RekeyWorktree | src/main/persistence.ts:4304-4338 | the tabs move under the new id and from the old workspace key to the new one |
| AwakeMachine.Refresh | src/main/agent-awake-service.ts:105-118 | the re-entrant refresh terminates: each nested round has one spawn fewer to try; it settles what is wanted and leaves the inputs alone |
| AwakeMachine.ReportFailure | src/main/linux-lid-sleep-assertion.ts:170-186 | the failure with its callback terminates, with no more spawns left than right after the deadline was set |
| AwakeProofs.CallbackDoesNotSpawn | src/main/linux-lid-sleep-assertion.ts:170-186 | because the deadline is set, or the tool given up, before the callback, the callback, however it nests, neither spawns this assertion again nor tries to |
| AwakeProofs.StepKeepsInv | src/main/agent-awake-service.ts:84-190 | every event, with every answer of the platform, keeps the children, listeners, logs and blocker in order and wakefulness held |
| AwakeProofs.WakefulnessHolds | src/main/agent-awake-service.ts:105-118 | in every reachable state at most one child is neither exited nor asked to die, only it is listened to, and wanted wakefulness is held by a child or a retry, or, on Linux only, the tool is missing |
| AwakeRelease.ReleasedWhenUnwanted | src/main/agent-awake-service.ts:113-117 | in every reachable state whose last refresh found nothing to stay awake for, no child is held or listened to, no retry is set, and every child still running has been asked to die |
| AwakeRelease.EventsDecide | src/main/agent-awake-service.ts:84-132 | every event that can change the decision takes it anew: wakefulness is wanted if and only if the service is enabled and some agent is working, observed, and was heard of within two hours |
| AwakeRelease.EventsSetTimer | src/main/agent-awake-service.ts:134-162 | it also arms the timer for the earliest expiry ahead, or disarms it when there is none |
| AwakeRelease.RefreshHolds | src/main/agent-awake-service.ts:105-118 | on a platform that does what it is asked, a refresh that wants wakefulness holds one blocker, the recorded one, and a child of each assertion that is not given up or waiting for a retry |
| AwakeRelease.RefreshHoldsAtOnce | src/main/agent-awake-service.ts:105-118 | after a time in which nothing was wanted it waits for no retry |
| AwakeRelease.RefreshDropsBlocker | src/main/agent-awake-service.ts:240-278 | one that wants none leaves no blocker |
| AwakeRelease.DisposeDropsBlocker | src/main/agent-awake-service.ts:97-103 | neither does disposing of the service |
| AwakeRelease.ThrowingKeepsBlocker | src/main/agent-awake-service.ts:172-278 | on a platform that only throws, whatever blocker was recorded or started stays so |
| AwakeRelease.RunsFromTheStart | src/main/agent-awake-service.ts:41-82 | over every run, a service that is never enabled wants nothing, and an assertion for another platform never has a child |
| AwakeProofs.SpawnRateHolds | src/main/linux-lid-sleep-assertion.ts:57-186 | a spawn keeps 30000 ms from every earlier failure unless stopped between; each child's failure is reported once at most and never after we stopped it; nothing is spawned after a missing tool |
| AwakeRelease.MissingToolIsGivenUp | src/main/linux-lid-sleep-assertion.ts:170-186 | a child that finds the Linux tool missing makes the service give it up |
| AwakeRelease.OnlyMissingToolIsGivenUp | src/main/linux-lid-sleep-assertion.ts:170-186 | over whole runs no other failure does |
| AwakeRelease.EndIsReportedOnce | src/main/macos-system-sleep-assertion.ts:121-141 | a child stopped on purpose ends without a report; any other end is reported, and only once |
| AwakeProofs.NoBlockerLeaks | src/main/agent-awake-service.ts:172-278 | a blocker still started is the recorded one |
| AwakeProofs.QuietAfterDispose | src/main/agent-awake-service.ts:97-103 | after dispose no timer, hook or listener is left, and nothing is acquired until an explicit call |
| StaleTimer.StaleDueIsEarliest | src/main/agent-awake-service.ts:134-162 | the timer is due at the earliest expiry still ahead, and unarmed if and only if there is none |
| StaleTimer.DecisionStaysRightIff | src/main/agent-awake-service.ts:105-162 | the decision stays right until the timer is due if and only if not all statuses that count expire at the refresh itself |
| StaleTimer.HeldWithoutTimerIff | src/main/agent-awake-service.ts:120-154 | the machine is kept awake with no timer armed if and only if all statuses that count expire right now; at every later time that is wrong |
| StaleTimer.TimerOnTimeHoldsForever | src/main/agent-awake-service.ts:130-157 | for every list of statuses, a timer firing exactly when due keeps the machine awake, and arms no other if and only if nothing outlives it; then nothing is eligible at any later time |
| AwakeService.SleepAssertion.Start | src/main/linux-lid-sleep-assertion.ts:57-64 | the start method, callbacks included, is the machine's step |
| AwakeService.SleepAssertion.Spawn | src/main/linux-lid-sleep-assertion.ts:66-114 | the spawn, its failure and the nested refresh are the machine's step |
| AwakeService.SleepAssertion.HandleFailure | src/main/linux-lid-sleep-assertion.ts:170-186 | the failure is recorded, a retry set up, and the service called back |
| AwakeService.SleepAssertion.StopNow | src/main/macos-system-sleep-assertion.ts:96-115 | the stop clears the retry, marks the child, takes its listeners off and asks it to die |
| AwakeService.SleepAssertion.NoteChildGone | src/main/macos-system-sleep-assertion.ts:121-141 | an intended or already reported end is not reported |
| AwakeService.AgentAwakeService.ReconcileBlocker | src/main/agent-awake-service.ts:259-278 | a blocker the system dropped is forgotten; a failed query changes nothing |
| AwakeService.AgentAwakeService.StartBlockerNow | src/main/agent-awake-service.ts:172-190 | the start, with its two reconciliations, is the machine's step |
| AwakeService.AgentAwakeService.StopBlockerNow | src/main/agent-awake-service.ts:240-257 | the stop, thrown or not, is the machine's step |
| AwakeService.AgentAwakeService.CountEligible | src/main/agent-awake-service.ts:120-132 | the loop counts the eligible statuses |
| AwakeService.AgentAwakeService.ScheduleStaleTimer | src/main/agent-awake-service.ts:134-162 | the loop arms the timer for the earliest expiry ahead |
| AwakeService.AgentAwakeService.RefreshNow | src/main/agent-awake-service.ts:105-118 | the whole refresh, nested ones included, is the machine's step |
| AwakeService.AgentAwakeService.SetEnabledTo | src/main/agent-awake-service.ts:84-90 | the call is the machine's event |
| AwakeService.AgentAwakeService.SetStatusesTo | src/main/agent-awake-service.ts:92-95 | the call is the machine's event |
| AwakeService.AgentAwakeService.DisposeNow | src/main/agent-awake-service.ts:97-103 | the call is the machine's event |
| AwakeService.AgentAwakeService.OnStaleTimer | src/main/agent-awake-service.ts:155-158 | the timer's firing is the machine's event |
| AwakeService.AgentAwakeService.OnResume | src/main/agent-awake-service.ts:74-78 | the resume hook is the machine's event |
| AwakeService.AgentAwakeService.OnRetryTimer | src/main/linux-lid-sleep-assertion.ts:218-221 | the retry's firing is the machine's event |
| AwakeService.AgentAwakeService.OnChildEvent | src/main/linux-lid-sleep-assertion.ts:139-159 | a child's error or exit is the machine's event |
| Backups.RotationKeepsRing | src/main/persistence.ts:2363-2425 | a rotation, with any operation failing and the process dying anywhere, keeps the slots newest first and an hour apart |
| Backups.RingStaysInOrder | src/main/persistence.ts:2363-2425 | the same over every sequence of saves |
| Backups.SoundRotationShifts | src/main/persistence.ts:2375-2425 | when nothing fails a rotation shifts the ring by one, with the new content in front |
| Backups.RotationSlots | src/main/persistence.ts:2375-2425 | slot by slot, after any number of a rotation's operations, whatever fails: which older slot's content, or the new one, each slot holds |
| Backups.SoundSaveBacksUp | src/main/persistence.ts:2363-2425 | a save at which nothing fails puts the new content in front of the ring if slot 0 is empty or at least an hour old, and leaves the ring alone otherwise |
| Backups.SoundSaveIsCovered | src/main/persistence.ts:2363-2371 | after it slot 0 holds a snapshot less than an hour old |
| Backups.FirstSaveBacksUp | src/main/persistence.ts:2363-2371 | after one sound save from the empty ring slot 0 is usable |
| Backups.BackupRing.RotateBackups | src/main/persistence.ts:2398-2425 | the loop over the slots, in place, does what the operations say, up to where the process dies |
| Backups.BackupRing.RestoreFromBackup | src/main/persistence.ts:2427-2445 | installs the first usable slot, which in a ring in order is the newest; fails if and only if there is none, and then the data file is as it was or truncated by an attempt that broke off |
| Backups.BackupRing.Load | src/main/persistence.ts:2980-2996 | loads at most once more after recovery, and what it returns is the data file or the newest usable backup |
| IdentityMigration.MigrationIsRenamingIff | src/main/persistence.ts:4284-4459 | with a fresh new id, migrating renames every record, and nothing else, if and only if what is said of the worktree is kept under it |
| IdentityMigration.OtherRecordsStay | src/main/persistence.ts:4399-4459 | metadata, dotfile settings and lineages under other ids are unchanged, but for a parent that was the old id |
| IdentityMigration.OtherSessionRecordsStay | src/main/persistence.ts:4304-4378 | a session's records under other keys are unchanged |
| IdentityMigration.MigrationFreesOldIdIff | src/main/persistence.ts:4284-4459 | with a fresh new id, afterwards nothing but the lists of prior ids mentions the old id or its workspace key if and only if what is said of the worktree is kept under it, lineages under its workspace key aside |
| IdentityMigration.StrayItemKeepsOldId | src/main/persistence.ts:4302-4303 | a tab kept under another worktree keeps naming the old id |
| IdentityMigration.MigrationIsUndone | src/main/persistence.ts:4284-4459 | migrating back restores everything but the lists of prior ids |
| IdentityMigration.PriorIdsAreRecorded | src/main/persistence.ts:4400-4411 | whatever stood under the new id, its metadata is the moved one if there was any, with the old id recorded once; other worktrees' metadata is unchanged |
| IdentityMigration.MigrationKeepsAncestry | src/main/persistence.ts:4413-4446 | both lineage graphs have a cycle afterwards if and only if they had one before |
| MigrationStore.MoveRecord | src/main/persistence.ts:4290-4300 | the moved record, and `changed` exactly when it differs |
| MigrationStore.MoveSessionRecord | src/main/persistence.ts:4309-4331 | the record moved under both kinds of key, and whether it differs |
| MigrationStore.MigratePages | src/main/persistence.ts:4346-4359 | exactly the pages that name the old id are rewritten |
| MigrationStore.MigrateOneSession | src/main/persistence.ts:4304-4397 | the whole migrated session, and whether it differs |
| MigrationStore.UpdateParents | src/main/persistence.ts:4421-4426 | exactly the parents that name the old id are rewritten |
| MigrationStore.Store.MigrateWorktreeIdentity | src/main/persistence.ts:4284-4459 | the whole new state, and a save exactly when the state before holds more to change than a stray lineage |
| MigrationStore.UnchangedButStrayIff | src/main/persistence.ts:4284-4459 | which states hold nothing more to change: no record, key, item, parent, pointer or prior list names the old id |
| MigrationStore.SaveIsLostIff | src/main/persistence.ts:4399-4456 | something changes and no save is scheduled if and only if a lineage under the new id calls itself by the old one, none is kept under the old one, and there is nothing more to change |
| MigrationStore.ChangeCanStayUnsaved | src/main/persistence.ts:4413-4417 | a stray lineage is put right although no save is scheduled |
| MigrationStore.SameIdIsNoMigration | src/main/persistence.ts:4284-4289 | an id that stays the same changes nothing and saves nothing |
| ScriptLines.NormalizeCrlfScriptLineEndings | src/main/hooks.ts:532-551 | the chunk scanner replaces every CRLF by LF and nothing else |
| ScriptLines.IterateLfScriptLines | src/main/hooks.ts:492-507 | the line scanner yields lines without LF whose join is the script with every CRLF replaced |
| ScriptLines.JoinedDeterminesLines | src/main/hooks.ts:492-507 | lines without LF are determined by their join |
| ScriptLines.ScannersAgree | src/main/hooks.ts:492-551 | the two scanners agree on every string |
| ScriptLines.BuildWindowsRunnerScript | src/main/hooks.ts:471-490 | the runner is the header and one fail-fast `call` block for each non-blank line, in order |
| ScriptLines.WindowsRunnerReadsBack | src/main/hooks.ts:471-490 | cut into lines again, the Windows runner is exactly those commands |
| ScriptLines.WindowsRunnerCallsScript | src/main/hooks.ts:471-490 | the commands called are exactly the lines of the script that are not blank, trimmed, in order, each followed by the exit on failure |
| ScriptLines.TrimTrims | src/main/hooks.ts:481-485 | trimming takes blanks, and nothing but blanks, off both ends, until none is left there |
| ScriptLines.PosixRunnerReadsBack | src/main/hooks.ts:528-530 | cut at LF, the POSIX runner is its header and the lines of the script |
| ScriptLines.BuildPosixRunnerScript | src/main/hooks.ts:528-530 | the script built has those lines |
| BoundedSearch.PushReversed | native/computer-use-linux/runtime.py:603-605 | pushing in reverse leaves the children on top in order |
| BoundedSearch.FirstDescendant | native/computer-use-linux/runtime.py:586-606 | the loop terminates on every finite-branching graph, cycles included, and returns what the search below returns |
| BoundedSearch.TestsAreBounded | native/computer-use-linux/runtime.py:590-598 | no node is visited twice, at most `max_nodes` are, and the search stops at the first match |
| BoundedSearch.FoundIsReachableMatch | native/computer-use-linux/runtime.py:586-606 | what is returned matches and is reachable within `max_depth` |
| SearchLimits.SearchIsExactOnShortTrails | native/computer-use-linux/runtime.py:586-606 | on every graph with no more nodes in reach than `max_nodes` and no walk without repetition longer than `max_depth`, nothing is returned if and only if no reachable node matches |
| SearchLimits.SearchIsExactWithinLimits | native/computer-use-linux/runtime.py:586-606 | so it is on every graph with at most `max_nodes`, and at most `max_depth` + 1, nodes in reach |
| SearchLimits.ExactForSizeIff | native/computer-use-linux/runtime.py:590-600 | the answer is exact on every graph of a size if and only if the size is at most `max_nodes` and at most `max_depth` + 1 |
| SearchLimits.ExactForTrailsIff | native/computer-use-linux/runtime.py:590-600 | within `max_nodes`, it is exact on every graph whose walks without repetition have at most so many edges if and only if that is at most `max_depth`, or `max_nodes` is at most `max_depth` + 1 |
| SearchLimits.ExactWithinDepthForSizeIff | native/computer-use-linux/runtime.py:590-600 | every match within the depth limit is found on every graph of a size if and only if the limits suffice for it: the same bounds, with the depth limits 0 and 1 as special cases |
| SearchLimits.ProgramLimits | native/computer-use-linux/runtime.py:33-34 | with 1200 nodes and depth 64 the bounds are 65 nodes and 64 edges |
| SearchLimits.DepthLimitCanHideMatch | native/computer-use-linux/runtime.py:593-600 | a concrete graph where a match within the depth limit is missed |
| BoundedSearch.TreeSearchIsPreorder | native/computer-use-linux/runtime.py:586-606 | on a tree the result is the first match in preorder among the first `max_nodes` nodes of depth at most `max_depth` |
| Argv.SetFlagValue | src/cli/args.ts:58-65 | a repeatable flag that has a value is extended, any other is replaced |
| Argv.ParseArgs | src/cli/args.ts:67-104 | the loop computes the words in order and the flags folded from left to right |
| Argv.ParseCommandLine | src/cli/args.ts:20-53 | the same with the program's own boolean flags |
| Argv.FlagStartsItem | src/cli/args.ts:78-100 | a flag starts a new item whatever comes before it |
| Argv.SpacedEqualsJoined | src/cli/args.ts:78-100 | `--f v` can be rewritten to `--f=v` anywhere without changing the result |
| Argv.ExchangeableIff | src/cli/args.ts:78-100 | that holds in all contexts if and only if the flag has no `=`, is not boolean, and the value is not a flag |
| Argv.RepeatedFlagReadsBack | src/cli/flags.ts:31-39 | `getRepeatedStringFlag` gives the non-empty pieces of every `--label` value since the last bare one, in order |
| Argv.PlainValuesReadBack | src/cli/flags.ts:31-39 | when every `--label` has a value free of the separator, it gives exactly the non-empty values in order |

## Left out

- BindingStore.Store.SetLocalWorkspaceSession: when an adopted id clashes the write is tied to some outcome of the pass, not to the operation of the runs; which value wins a key follows JavaScript's record order.
- AwakeService.SleepAssertion.Start: the macOS class has no missing-tool state; one class with a platform stands for both, and macOS never sets it.
- WriteRule.LeafWriteRule: when an adopted id clashes, two incoming bindings can compete for one leaf; which of them wins follows JavaScript's key order and is left open.
- Backups.RingStaysInOrder: an async rotation interrupted by a flush is not part of this model; rotations run one at a time.
- SaveProtocol.DisciplinedRunsAreMonotone: the generation test and the rename it guards are one step; a flush between the two is not modelled.
- BoundedSearch.FirstDescendant: a node's identity is the node; an `id()` reused after garbage collection is not modelled.
- `randomUUID` never repeats and never returns an id already in a layout: ids are drawn from a counter, and stable ids in the input were drawn before.
- JavaScript's key order is a parameter where it matters (tabs, worktrees) and arbitrary elsewhere; of two record entries renamed to one key, which only a clash allows, an arbitrary one wins.
- Two encodings of one SSH connection id are one id; an operation that throws on a foreign id returns without change.
- `load()` and its settings and UI migrations: runs start from any session, and, where it matters, from leases unique in target and relay id.
- Timestamps of leases, the active worktree and tab, tab fields other than id and PTY, and the scrollback and browser-history pruners, which leave tabs, layouts and bindings alone.
- Legacy pane-key alias entries and migration-unsupported rows: they are refreshed with the clock on every pass.
- Sessions of other execution hosts outside the identity migration, and patches of a session that skip normalisation.
- A lease or automation keyed by worktree id: the identity migration does not re-key them.
- In the identity migration a worktree id is never itself a workspace key; the fields of a session that are handled alike are one family each.
- The clock does not move within one event; timers may fire any time after they are armed, so their delays are over-approximated.
- A child's `error` event means it is not running; logging, failure streaks and `unref` are left out.
- Real file system, child processes, Electron and encryption: their outcomes are parameters.
- AT-SPI calls and rendering, CLI help and numeric flags, runner paths and environment variables.
