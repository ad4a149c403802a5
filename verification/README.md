# Verified model of a password-vault engine's synchronisation core

The engine keeps a KDBX vault mirrored in a database and reconciles it with the
vaults of other devices. This project models, in Dafny, what that engine does to
its tables, and proves what its users rely on: two devices that exchange vaults
end with the same groups, entries and deletions; no pull makes anything disappear
without a tombstone; a save that changes nothing writes nothing. With one connection
nothing a user wrote is replaced without being merged. With several it can be, in a
peer pass and around a save or a reconcile; the section "Results that differ from the
expectation" gives each way it happens and the exact condition under which it cannot.

`dafny verify dfyconfig.toml` checks the whole project.

## Layout

| file | models |
|---|---|
| `Order.dfy`, `Sequences.dfy` | comparison results, whole-second stamps, sequences without repetition |
| `GroupGraph.dfy` | parent maps: ancestors, cycles, finite trees, depth, subtrees |
| `Store.dfy` | the vault as a value and the mirror as a class of tables with its write counter |
| `GroupCycles.dfy` | breaking the cycles that concurrent moves leave |
| `GroupSync.dfy` | last-writer-wins merge of a peer's group tree |
| `GroupLaws.dfy`, `VaultTree.dfy` | that merge column by column; what walking a vault's tree visits |
| `GroupTombstones.dfy` | which deleted groups really go, and deleting them |
| `EntryRules.dfy` | per-entry rules: edit against delete, adopting a resolution, location, merge stamps |
| `BinWalk.dfy` | the recycle-bin flag and the ancestor walk to the bin |
| `EntrySync.dfy`, `PeerEntries.dfy` | what a pass over a peer's entries leaves, and the loops that do it |
| `EntryLaws.dfy` | what a pass does to one entry, column by column: stamp, history, attachments, place, deletion |
| `PeerPass.dfy` | one whole peer pass |
| `PassSoundness.dfy` | what every pass keeps, whatever the peer's vault |
| `Exchange.dfy`, `ExchangedContents.dfy` | theorems about two replicas that exchange vaults: structure, and the contents of shared entries |
| `PassFlags.dfy` | what a pass makes of the recycle-bin flags of entries |
| `Projection.dfy`, `PassRuns.dfy` | rebuilding a vault from the tables; runs of passes with a projection before each |
| `SecondExchange.dfy` | what a second exchange finds to do |
| `StaleProjection.dfy` | what a pass loses of what other connections wrote since its local vault was projected |
| `Watermark.dfy` | the persistence counters, saves, reconciles and the resolver stash, as interleaved steps |
| `Trust.dfy` | when a mirror that counts as saved owes its file nothing |
| `SavedFile.dfy` | when a mirror that counts as saved has its contents in the file |
| `EntryFields.dfy`, `FullIngest.dfy` | an entry's field and custom-data rows; replacing the mirror with a vault |
| `Devices.dfy`, `Cases.dfy` | devices end to end: open the files, exchange, converge; vaults that end differently |
| `Resolve.dfy` | applying a user's resolution of a conflict |
| `History.dfy` | archiving and pruning an entry's history |
| `SaveEntry.dfy` | the entry editor's save |
| `GroupDelete.dfy`, `GroupOps.dfy` | cascade deletion; creating, moving, reordering, recycling groups |
| `RecycleBin.dfy` | recycling and restoring entries |
| `BinBorder.dfy`, `LocalRuns.dfy` | moving groups across the border of the bin; runs of all these local operations |
| `Blobs.dfy`, `PeerRows.dfy` | the attachment pool and its collection; parked conflicts and rebuilding them |
| `PredicateJson.dfy` | smart-folder predicates and their tolerant JSON form |
| `KdfSpec.dfy` | the text form of key-derivation settings |

The tables are fields of a class and each operation is a method that changes them;
its `ensures` ties the new tables to a specification function or states them
outright, and the lemmas are about those functions. A transaction is a method
call: it commits as a whole or leaves the tables alone. `Mirror.mutationSeq`
counts writes to rows that are projected back into the vault file.

`PeerPass.IngestPeer` works on whatever tables it finds (`Standing`), with a local
vault that was projected before: it fails exactly where the code does
(`EntrySync.Commits`) and then rolls back. `PeerPass.Represents` says that the
projection is current. What another device gets to see of a vault is
`PeerPass.Handed`: a file, in which the times of deletions and of settings too are
whole seconds.

Modification stamps are milliseconds; ids compare as the numbers their text
spells. What the merge library decides is a parameter (`EntrySync.Brain`,
`Resolve.Merge`), and every theorem holds for whatever functions are put there,
except where an assumption about them is named (`KeepsPlacement`: an auto-merge
stays on local's entry and keeps its placement; `KnowsItself`: a vault merged with
its own file is itself; `AlikeVerdicts`: both sides judge a pair of entries alike;
`LatestBinWins`: of two bin settings the strictly later one; `MergesFit`: a merge
repeats no key; `CarriesHistory`: an auto-merge carries local's history; `FoldUnites`: a
fold keeps every record of both histories but those that a tombstone or a cap takes).

## Results that differ from the expectation

Each is proved of the code as it is, with the exact condition.

* Location converges in every case except adoption. An adopting replica writes the
  peer's stamp and previous parent into its own group first; the two sides then
  meet exactly under `AdoptedMeets` (`Exchange.LandingsMeet`, `LocationsAgree`),
  and `Cases.AdoptionCanSplitLocations` is an exchange of two vaults in which they
  do not.
* Deletion times are floored in a file but not in the mirror that recorded them.
  After an exchange the times agree to the second always, and exactly, id by id, if
  both sides had recorded the deletion in one second or the earlier time was whole
  (`Exchange.TombstonesAgree`, `ExchangeConverges`); a mirror that pulls its own file
  writes exactly if one of its times is not whole (`Exchange.OwnSnapshotIsQuiet`,
  `Devices.PullOwn`). `Cases.DeletionTimesCanDiffer` is an exchange where they differ.
* The times of settings are floored in a file too. If the later bin setting wins, two
  replicas that set different bins agree on one after an exchange exactly if they set
  it in different seconds (`Exchange.BinPointersMeet`).
* A pass brings new entries in unflagged, also into the bin, and moves of groups do
  not touch the flags of what is in them. The flags stay exact exactly if, in the
  merged tree with the bin that the merged settings name, every entry that survives
  lands on the side of the bin's border it was judged to be on
  (`PassFlags.PassKeepsFlagsExactly`); over runs of local operations, exactly if none
  carries an entry across that border (`LocalRuns.Run`).
* If both sides resolved a conflict and neither edited afterwards, both keep their
  own value with no badge, and only then (`EntryRules.ResolvedTwiceStaysSplit`).
* Merge stamps agree for attachment-free edits; with attachments exactly in the
  cases `EntryRules.MergeTimesAgreeWhen` lists.
* After an exchange an entry both sides hold has one version on both, or an open
  conflict on both, except for an entry both resolved
  (`ExchangedContents.InSyncAgrees`, `MergesAgree`, `ConflictsAgree`). An entry in sync
  keeps each side's own stamp: the stamps agree to the second exactly if they did
  before, which an edit made alike on both sides in different seconds does not
  (`Cases.SameEditKeepsTwoStamps`). Merged entries agree on the stamp except in the
  attachment cases above, adopted ones to the second.
* Group stamps after an exchange agree exactly under the condition of
  `GroupSync.MoveStampsAgree`; the parents always do.
* Pruning by size can drop a large recent version and keep an older small one. The
  survivors are a run of the newest exactly if the sizes allow a clean cut
  (`History.SuffixExactly`, `SizeCapKeepsOlder`).
* Recycling a group keeps the tree exactly if the bin is not inside it
  (`GroupOps.RecycleGroup`); so does any run, up to the first such operation
  (`LocalRuns.Run`).
* A peer pass gets a projection taken before its transaction, and other connections may
  write in between. Every row, every deletion on record that stands against the peer's
  copy, and the settings survive the pass, whatever was written, exactly if four
  conditions on the two vaults hold (`StaleProjection.NothingIsLostExactly`): no
  verdict overwrites and no history is folded (`RowsSurviveExactly`); the projected
  stamp of every entry that the peer deleted beats the deletion (same); the pass adds
  nothing, that is, the peer holds no entry but those that the projection has, or has as
  deleted with a time that stands against the peer's copy (`DeletionsSurviveExactly`);
  and nothing of the peer's settings won over the projected ones
  (`SettingsSurviveExactly`). Each failing case has its input: `LiveEditIsLost` and
  `ArchivedVersionIsLost`, `Cases.EditBesideDeletionIsLost` (an edit later than the
  peer's deletion goes with the entry), `DeletionThatIsUndone` (an entry comes in live
  beside its own tombstone, or takes its record along), `Cases.DeletedAgainIsUndone` and
  `SettingsThatAreLost`. Groups, icons and the conflict rows of other owners are read
  anew (`ReadAnew`); the peer's own conflict rows are always rewritten, so they survive
  only between vaults that share no entry (`ConflictRowsSurviveExactly`).
* A disk reconcile that finds the mirror clean, and a save that adopts another vault's
  key-derivation settings, both end by marking as persisted whatever counter they then
  read. An edit by another connection inside either window is masked: the mirror counts
  as saved, and the next file ingest discards the edit (`Trust.ReconcileCanMask`,
  `AdoptionCanMask`). The counters may be trusted over a run exactly if no such settle
  has another connection's owed write below it (`Trust.TrustedExactly`, `MasksExactly`);
  the connection could tell, since its counter then moved further than by its own rows
  (`Trust.CountersTell`).
* A mirror counted as saved need not have its contents in the file: a second save can
  overtake the first (`SavedFile.OverlappingSavesLoseTheFile`). Over all continuations
  by any number of saves the file can be relied on exactly if no capture in flight
  differs from what the mirror holds (`SavedFile.SavesRobustExactly`). For runs with
  reconciles and other programs, `SavedFile.RobustExactly` names the steps that break
  it, one by one.
* A history is recognised as identical to itself exactly if no record has a
  dangling attachment (`EntryRules.HistoryIsItself`).
* `same_content` is documented as treating an entry with a duplicate attachment
  name as unequal to everything (`crates/keys-engine/src/ingest.rs:2062-2065`). The
  code compares the sorted lists, so such an entry equals one with the same list
  (`EntryRules.SameNamesEqualThemselves`); the model follows the code.

## Model

| member | source | states |
|---|---|---|
| GroupCycles.BreakGroupCycles | crates/keys-engine/src/ingest.rs:1701-1742 | from any closed parent map the loop ends with exactly the smallest member of each original cycle under the root, every other edge unchanged, and one tree |
| GroupCycles.FindOneCycle | crates/keys-engine/src/ingest.rs:1749-1765 | returns a cycle exactly when the map has one, whatever order the rows are visited in |
| GroupCycles.RerootKeepsBroken | crates/keys-engine/src/ingest.rs:1722-1738 | re-parenting one smallest member leaves the final answer unchanged, so the order in which cycles are found does not matter |
| GroupCycles.BrokenIsTree | crates/keys-engine/src/ingest.rs:1689-1742 | after breaking, every group reaches the root |
| GroupSync.ReconcileGroupMetadata | crates/keys-engine/src/ingest.rs:1558-1621 | the row takes the peer's name, notes, icon, custom icon and exact stamp exactly if the peer set them in a later second, or in the same one with greater texts; else it stays, and nothing is written |
| GroupSync.ReconcileGroupLocation | crates/keys-engine/src/ingest.rs:1646-1687 | the row takes the peer's parent and floored stamp exactly if it differs and the peer moved the group in a later second, or in the same one under a greater parent; the root is never moved |
| GroupSync.ReconcilePeerGroups | crates/keys-engine/src/ingest.rs:1462-1545 | the group table becomes the per-row merge of both trees with cycles broken; nothing is written exactly when nothing changes |
| GroupSync.AfterPeerGroupsIsTree | crates/keys-engine/src/ingest.rs:1462-1545 | that table is one finite tree under the root for every peer tree of the same root |
| GroupSync.MergeIsSymmetric | crates/keys-engine/src/ingest.rs:1558-1687 | each side merging the other's copy of a group lands on the same parent, name, notes and icon |
| GroupSync.ExchangeConverges | crates/keys-engine/src/ingest.rs:1462-1742 | two replicas folding in each other's tree end with the same groups, parents and metadata, also when concurrent moves close a cycle |
| GroupLaws.LaterMetadataWins | crates/keys-engine/src/ingest.rs:1584-1605 | in the table after the group half of a pass a group both hold has the peer's name, notes, icon, custom icon and stamp if the peer set them in a later second, its own if in an earlier one, and in the same second by the texts |
| GroupLaws.LaterPlaceWins | crates/keys-engine/src/ingest.rs:1658-1687 | before cycles are broken it is under the peer's parent exactly if the peer moved it in a later second, or in the same one to a greater id |
| GroupLaws.BreakingMovesToRoot | crates/keys-engine/src/ingest.rs:1701-1742 | breaking cycles puts the smallest member of each cycle under the root and touches no other column and no other group |
| GroupLaws.NewGroupComesIn | crates/keys-engine/src/ingest.rs:1494-1529 | a group only the peer holds comes in with the peer's columns, parent, position and exact move stamp, never as the bin |
| GroupLaws.OwnGroupStays | crates/keys-engine/src/ingest.rs:1462-1545 | a group only we hold keeps its row until cycles are broken |
| GroupLaws.ExchangeTakesLater | crates/keys-engine/src/ingest.rs:1584-1605 | after an exchange both sides hold the name, notes and icons that were set in the later second |
| GroupLaws.LaterMoveSurvives | crates/keys-engine/src/ingest.rs:1658-1687 | a move in a later second than the peer's stamp keeps its parent and stamp through the pass, unless a cycle is broken at the group |
| GroupSync.MoveStampsAgree | crates/keys-engine/src/ingest.rs:1675-1679 | when the two location stamps of a group agree after an exchange, as an if-and-only-if |
| GroupTombstones.GroupAliveMeans | crates/keys-engine/src/ingest.rs:1398-1411 | the recursive test says alive exactly if something in the subtree is not tombstoned or holds an entry |
| GroupTombstones.MaterializeGroupTombstones | crates/keys-engine/src/ingest.rs:1313-1377 | exactly the groups whose whole subtree is tombstoned and empty go; survivors lose their tombstones; every reference resolves |
| GroupTombstones.DeleteDead | crates/keys-engine/src/ingest.rs:1355-1377 | deletes deepest first, with no dangling parent or entry after any single deletion |
| GroupTombstones.SurvivorsFormTree | crates/keys-engine/src/ingest.rs:1313-1377 | the survivors are one tree with every entry housed, or nothing if even the root is gone |
| GroupTombstones.VerdictIsShared | crates/keys-engine/src/ingest.rs:1313-1377 | replicas that agree on edges, entry placement and tombstones delete the same groups |
| EntryRules.EarliestIsJoin | crates/keys-engine/src/ingest.rs:2452-2458 | joining deletion times is commutative, associative and idempotent |
| EntryRules.TombstoneMapMeans | crates/keys-engine/src/ingest.rs:2438-2448 | the map holds, for each recorded id, the earliest of its recorded times |
| EntryRules.AdoptionNeverSwaps | crates/keys-engine/src/ingest.rs:951-1022 | a side adopts only from one that keeps its own value; with one record both end on the resolver's value or both hold the conflict open |
| EntryRules.ResolvedTwiceStaysSplit | crates/keys-engine/src/ingest.rs:951-979 | both keep their own value exactly if both resolved and neither edited after the other's record |
| EntryRules.LaterIsJoin | crates/keys-engine/src/ingest.rs:1802-1861 | choosing the later location is the join of a total order |
| EntryRules.HistoryIsItself | crates/keys-engine/src/ingest.rs:2066-2180 | the steady-state test recognises a history as itself exactly if no record dangles |
| EntryRules.SameNamesEqualThemselves | crates/keys-engine/src/ingest.rs:2062-2088 | an entry with two attachments of one name equals itself, unlike documented |
| EntryRules.JoinsMeet | crates/keys-engine/src/ingest.rs:2452-2458 | two sides that each join their own deletion time with the other's floored one agree to the second, and exactly if both fell in one second or the earlier is whole |
| EntryRules.MergeTimesAgree | crates/keys-engine/src/ingest.rs:1973-1988 | dated attachment-free entries of different versions get one stamp on both replicas, later than both inputs when both contributed and the clock allows |
| EntryRules.MergeTimesAgreeWhen | crates/keys-engine/src/ingest.rs:1973-1988 | the exact cases in which the stamps agree once attachments are taken over |
| BinWalk.GroupInBinSubtree | crates/keys-engine/src/mutations.rs:1467-1488 | the bounded walk answers whether a group is the bin or inside it, for up to 10,000 groups |
| BinWalk.WriteRecycleBinGroup | crates/keys-engine/src/meta.rs:314-328 | exactly the named group is flagged afterwards |
| BinWalk.ClearRecycleBinGroup | crates/keys-engine/src/meta.rs:335-341 | no group is flagged afterwards |
| VaultTree.FlattenVisits | crates/keys-engine/src/ingest.rs:1468-1488 | flattening a tree lists the root first and then exactly the groups below it, each with its parent and its position there |
| VaultTree.VaultEntries | crates/keys-engine/src/ingest.rs:2359-2364 | the collected entries are exactly the entries of the tree's groups, each with the group that holds it |
| EntrySync.IndexMeans | crates/keys-engine/src/ingest.rs:2359-2364 | the index by id holds exactly the collected entries |
| PeerEntries.ReconcileEntryLocation | crates/keys-engine/src/ingest.rs:1802-1861 | the entry moves exactly if the peer put it there in a later second (in the same one: into the greater group, then from the greater previous one) and that group exists; then it has the peer's stamp to the second and previous parent, and the flag the bin walk gives |
| PeerEntries.ReconcileSharedEntry | crates/keys-engine/src/ingest.rs:858-1104 | verdict, location and history applied to one shared entry and its conflict row, and whether it wrote |
| EntryLaws.MergeArchives | crates/keys-engine/src/ingest.rs:872-930 | after an auto-merge the row has the merged version with the attachment changes; the version it replaces is archived exactly if a text, field, tag or attachment changes and no record of either side equals it; that history goes to the fold |
| EntryLaws.MergeStamps | crates/keys-engine/src/ingest.rs:1973-1988 | the stamp of an auto-merge: local's own, the peer's, or one second past both, as far as the clock goes |
| EntryLaws.ChangesDecide | crates/keys-engine/src/ingest.rs:907-930 | the last attachment change of a name decides: taken, it is the one attachment of that name, with those bytes; dropped, there is none; other names stay |
| EntryLaws.AdoptionArchives | crates/keys-engine/src/ingest.rs:979-1022 | an adoption leaves the peer's version over the peer's history with local's folded in |
| EntryLaws.InSyncFolds | crates/keys-engine/src/ingest.rs:1041-1104 | in sync the version stays and the peer's history is folded into local's, unless both have the same records in the same seconds and none is over the caps |
| EntryLaws.HeldOnlyScrubs | crates/keys-engine/src/ingest.rs:1041-1104 | a conflict that is not adopted changes neither version nor history, but for records that were scrubbed |
| EntryLaws.ReplacedVersionStays | crates/keys-engine/src/ingest.rs:2003-2024 | with a lossless fold the version a merge replaces is in the row's history after the pass, whatever the histories were |
| EntryLaws.PassArchives | crates/keys-engine/src/ingest.rs:813-1104 | the same for every merged entry of a whole pass |
| EntryLaws.PlaceDecided | crates/keys-engine/src/ingest.rs:1802-1861 | unless adopted, a shared entry ends where it was put later, by second, then group, then previous parent |
| EntryLaws.DeletionDecides | crates/keys-engine/src/ingest.rs:1204-1236 | an entry the peer deleted goes exactly if the deletion is dated and no edit of ours is known to be later |
| EntryLaws.ArrivalDecides | crates/keys-engine/src/ingest.rs:817-853 | an entry only the peer has stays away exactly if our deletion of it is dated and no edit of the peer's is known to be later |
| PeerEntries.ReconcilePeerEntry | crates/keys-engine/src/ingest.rs:813-1104 | one entry of the peer, on whatever the tables hold by now: reconciled, added, resurrected with its tombstone scrubbed, or left deleted; and exactly when it fails the pass |
| PeerEntries.WalkPeerEntries | crates/keys-engine/src/ingest.rs:813-1104 | the walk commits exactly if no entry of the peer fails, and then leaves the specified tables |
| PeerEntries.ReconcilePeerDeletes | crates/keys-engine/src/ingest.rs:1204-1236 | exactly the entries whose deletion by the peer stands are removed |
| PeerEntries.UnionPeerTombstones | crates/keys-engine/src/ingest.rs:1245-1257 | tombstones become the join with the peer's, never for a live entry, and writes happen exactly on change |
| PeerEntries.ReconcilePeerEntries | crates/keys-engine/src/ingest.rs:813-1118 | entries, tombstones and conflict rows after the entry half of a pass, exactly when it fails and exactly when it writes nothing |
| PeerPass.IngestPeer | crates/keys-engine/src/ingest.rs:748-1129 | over any projection a pass commits exactly if no entry fails it; then every table is as the specification says, else as before; the counter stays if and only if no step has anything to write |
| PassSoundness.CommitsOverCurrent | crates/keys-engine/src/ingest.rs:482-514 | over a current projection a pass fails exactly on an inserted entry that repeats a key |
| PassSoundness.RowAfter | crates/keys-engine/src/ingest.rs:813-1236 | one row through a pass that commits: judged by the projection if it had the entry, untouched if created since, still gone if deleted since |
| PeerPass.ReconcilePeerMeta | crates/keys-engine/src/ingest.rs:1148-1186 | settings and the flag of the bin group follow the merge, written, over whatever is there, exactly if something of the peer's won over the projected settings |
| PeerPass.UnionPeerCustomIcons | crates/keys-engine/src/ingest.rs:1278-1292 | icons not yet held are added, others left, and the counter moves exactly if one was added |
| Exchange.SharedLocation | crates/keys-engine/src/ingest.rs:979-1039 | where a shared entry lands after verdict and location, adoption included |
| Exchange.LandingsMeet | crates/keys-engine/src/ingest.rs:979-1039 | the two landings of an entry coincide exactly under the adoption condition |
| Cases.AdoptionCanSplitLocations | crates/keys-engine/src/ingest.rs:979-995 | an exchange of two vaults, with the rest of the premises of convergence met, that leaves one entry in two groups |
| Cases.DeletionTimesCanDiffer | crates/keys-engine/src/meta.rs:741-765 | an exchange of two vaults after which both sides record a deletion, one with the fraction of a second and one without |
| Cases.FreshDeletionStaysApart | crates/keys-engine/src/ingest.rs:1204-1257 | in any exchange a deletion only one side knows keeps its exact time there and arrives floored on the other |
| Exchange.FoldIsMaximum | crates/keys-engine/src/ingest.rs:1802-1861 | folding any sequence of copies leaves the latest location of all |
| Exchange.FoldIgnoresOrder | crates/keys-engine/src/ingest.rs:1802-1861 | order and repetition of the copies do not matter |
| Exchange.LiveEntriesAgree | crates/keys-engine/src/ingest.rs:815-853 | after a simultaneous exchange both replicas hold the same live entry ids |
| Exchange.TombstonesAgree | crates/keys-engine/src/ingest.rs:1204-1257 | and tombstones for the same ids with the same times to the second; the same times exactly, id by id, if and only if both were recorded in one second or the earlier is a whole second |
| Exchange.LocationsAgree | crates/keys-engine/src/ingest.rs:1802-1861 | all shared locations agree exactly if those that one side adopted meet the condition |
| Exchange.ExchangeConverges | crates/keys-engine/src/ingest.rs:748-1129 | the main theorem: same groups, parents, metadata, live entries, groups of entries and tombstones to the second on both sides of an exchange; the same times exactly where the recorded ones were in step |
| PassSoundness.BinFollowsMeta | crates/keys-engine/src/ingest.rs:1148-1186 | over a current projection exactly the bin the merged settings name is flagged after a pass |
| Exchange.BinsConverge | crates/keys-engine/src/ingest.rs:1148-1186 | a group is flagged alike on both sides exactly if the two merges, each of its own settings with the other's from a file, agree on it |
| Exchange.BinPointersMeet | crates/keys-engine/src/meta.rs:698-702 | with the later bin setting winning, different bins meet after an exchange if and only if they were set in different seconds |
| PassSoundness.PassKeepsStanding | crates/keys-engine/src/ingest.rs:748-1129 | over any projection a pass over any vault of the same root leaves one tree, every entry housed, one bin at most and no tombstoned group, exactly unless everything is deleted; then it leaves nothing |
| PassSoundness.PassKeepsSound | crates/keys-engine/src/ingest.rs:748-1129 | over a current projection also no live entry with its own tombstone |
| PassSoundness.LiveAndTombstoned | crates/keys-engine/src/ingest.rs:817-853 | over any projection an entry ends live beside its own tombstone exactly if it was taken in and its deletion was recorded since |
| PassSoundness.LiveNotTombstoned | crates/keys-engine/src/ingest.rs:2427-2528 | no pass over a current projection leaves a live entry with its own tombstone |
| PassRuns.RunKeepsSound | crates/keys-engine/src/engine/conflict.rs:426-449 | any run of pulls, projecting anew before each, over any vaults that spare the root, leaves sound tables |
| PassRuns.NothingVanishes | crates/keys-engine/src/ingest.rs:1204-1377 | over any run, what was live or recorded as deleted is live or recorded as deleted at the end |
| PassRuns.PeersAreHeard | crates/keys-engine/src/ingest.rs:748-1129 | and so is everything that any peer of a run that commits held or recorded as deleted |
| Projection.ProjectionExists | crates/keys-engine/src/projection.rs:306-404 | sound tables project to a vault that represents them: the tree is walked completely, each group and entry once, with stamps to the second |
| SecondExchange.SecondExchangeIsQuiet | crates/keys-engine/src/ingest.rs:748-1129 | after an exchange the replicas agree and are ready for another; in it a side writes nothing, settings apart, if and only if its deletion times are whole seconds and the merge library has nothing more to say |
| SecondExchange.ExchangeSurvives | crates/keys-engine/src/ingest.rs:748-1129 | with rows keyed by their entries and no deletion of the root, both replicas can be projected again after an exchange |
| SecondExchange.AgreedPassIsQuiet | crates/keys-engine/src/ingest.rs:748-1129 | for any two replicas that agree, exactly when a pass writes nothing, and that it then leaves the tables as they were but for floored deletion times |
| ExchangedContents.InSyncAgrees | crates/keys-engine/src/ingest.rs:872-886 | an entry both sides call in sync keeps one version on both, each with its own stamp; the stamps agree to the second if and only if they did before |
| Cases.SameEditKeepsTwoStamps | crates/keys-engine/src/ingest.rs:872-886 | an exchange of two vaults with one edit made on both sides in different seconds, after which the stamps still differ |
| ExchangedContents.MergesAgree | crates/keys-engine/src/ingest.rs:1973-1988 | an entry both sides merge ends with one version on both, and one stamp exactly in the listed attachment cases |
| ExchangedContents.ConflictsAgree | crates/keys-engine/src/ingest.rs:936-1022 | an entry in conflict ends open on both sides, or with one version in one second on both, or, exactly if both resolved and neither edited later, with each side's own |
| PassFlags.PassKeepsFlagsExactly | crates/keys-engine/src/ingest.rs:1802-1861 | the flags stay exact through a pass if and only if, by the merged tree and the merged settings, no entry that survives lands across the bin's border from where it was judged: new ones outside, moved ones by the bin so far, the others by the tree so far |
| PassFlags.InBinAfter | crates/keys-engine/src/ingest.rs:1148-1186 | a group that survives a pass is in the bin exactly if it is below the merged settings' bin in the merged tree |
| PassFlags.NewInBinIsUnflagged | crates/keys-engine/src/ingest.rs:834-853 | an entry the pass adds inside the bin is not flagged |
| Exchange.ConflictRowsExact | crates/keys-engine/src/ingest.rs:936-1022 | the owner's row exists for a shared entry exactly if the pass held it open; other owners' rows are untouched |
| Exchange.ConflictedVersions | crates/keys-engine/src/ingest.rs:936-1022 | the version each side holds of a conflicted entry after an exchange, decision by decision |
| Exchange.OwnSnapshotIsQuiet | crates/keys-engine/src/ingest.rs:748-1129 | a pass over the mirror's own vault as a file holds it changes nothing but the fractions of deletion times, and writes exactly if there are any |
| StaleProjection.NothingIsLostExactly | crates/keys-engine/src/engine/conflict.rs:438-449 | over all tables that other connections may have left since the projection: rows, standing deletions and settings all survive the pass if and only if the two vaults meet the four conditions |
| StaleProjection.RowsSurviveExactly | crates/keys-engine/src/ingest.rs:813-1236 | every row survives whatever was written to it, but for a strictly later place of the peer's, if and only if no verdict overwrites, no history is folded, and the projected stamp beats every deletion by the peer |
| StaleProjection.DeletionsSurviveExactly | crates/keys-engine/src/ingest.rs:817-853 | every deletion on record that stands against the peer's copy, whenever it was recorded, keeps the entry out and stays on record, if and only if the pass adds nothing |
| StaleProjection.DeletionStays | crates/keys-engine/src/ingest.rs:817-853 | a pass that adds nothing keeps every deletion with its time joined with the peer's |
| StaleProjection.SettingsSurviveExactly | crates/keys-engine/src/ingest.rs:1148-1186 | settings and bin survive whatever they were set to if and only if nothing of the peer's won over the projected ones |
| StaleProjection.NewerEditIsDeleted | crates/keys-engine/src/ingest.rs:1204-1236 | an edit since, later than the peer's deletion, is deleted exactly if the projected edit was not later |
| StaleProjection.DeletionThatIsUndone | crates/keys-engine/src/ingest.rs:817-853 | the input for every entry that a pass adds: a dated deletion that stands against the peer's copy; the entry is live after the pass, with the record removed if the projection had one and beside it if not |
| StaleProjection.ConflictRowsSurviveExactly | crates/keys-engine/src/ingest.rs:936-1022 | the conflict rows survive whatever was done to them if and only if the two vaults share no entry |
| StaleProjection.OwnRowsRewritten | crates/keys-engine/src/ingest.rs:936-1022 | the peer's row for a shared entry is there after the pass exactly if the projected verdict holds the conflict open, even if it was dissolved since |
| StaleProjection.SettingsThatAreLost | crates/keys-engine/src/ingest.rs:1148-1186 | the input: a change of the database name since, gone after the pass |
| StaleProjection.ReadAnew | crates/keys-engine/src/ingest.rs:1278-1687 | groups, icons and other owners' conflict rows are merged from what the tables hold by then, and no group goes without its deletion on record |
| Cases.EditBesideDeletionIsLost | crates/keys-engine/src/ingest.rs:1204-1236 | a vault, a peer's file and an edit in between, later than the peer's deletion, that goes with the entry |
| Cases.DeletedAgainIsUndone | crates/keys-engine/src/ingest.rs:817-835 | a vault with a deletion, a peer's file with a later edit, and a second deletion in between, later than the edit, that is undone with its record |
| StaleProjection.EditSurvivesExactly | crates/keys-engine/src/engine/conflict.rs:438-449 | for an entry both sides hold: what was written since, live version, history and its tombstones, survives whatever it was, if and only if the verdict does not overwrite and no history is folded |
| StaleProjection.ArchivedVersionIsLost | crates/keys-engine/src/ingest.rs:1041-1104 | whenever a history is folded some version archived in between is lost, whether or not the live version survives |
| StaleProjection.InSyncPassLosesArchivedVersion | crates/keys-engine/src/ingest.rs:1041-1104 | the input: an in-sync verdict with differing histories, after which the just archived version is gone |
| StaleProjection.PlaceIsCurrent | crates/keys-engine/src/ingest.rs:1802-1861 | the entry's place is joined with the one the row has by then, not the projected one |
| Watermark.RunKeepsInv | crates/keys-engine/src/engine/mod.rs:886-925 | over any interleaving, reconciles and adopting saves included, the persisted counter never exceeds the mutation counter, captured vaults are current for their counters, and every window accounts for the rows written in it |
| Watermark.ResolutionMergesCurrent | crates/keys-engine/src/conflict_resolution.rs:119-195 | an applied resolution merges the contents of that moment or changes nothing, and consumes its stash either way |
| Watermark.StashIsOneShot | crates/keys-engine/src/conflict_resolution.rs:119-133 | over any run a stash id is consumed at most once |
| Watermark.SaveNeverMasks | crates/keys-engine/src/save.rs:234-307 | a mutation during a save is still owed once that save is recorded at the counter it started from |
| Trust.TrustedExactly | crates/keys-engine/src/engine/mod.rs:1066-1112 | over any run the counters may be trusted all along if and only if no settle masks, and then no file ingest loses anything |
| Trust.MasksExactly | crates/keys-engine/src/engine/mod.rs:1066-1112 | a settle masks exactly if another connection wrote something owed between the dirtiness read and the count |
| Trust.CountersTell | crates/keys-engine/src/engine/mod.rs:894-900 | a counter that moved by the connection's own rows masks nothing, and one that moved further masks unless the file was given something meanwhile |
| Trust.IngestLosesExactly | crates/keys-engine/src/ingest.rs:172-262 | a file ingest is refused while the mirror counts as dirty, and otherwise loses exactly what the file was not given: nothing if and only if the counters may be trusted |
| Trust.ForeignWriteIsLost | crates/keys-engine/src/engine/mod.rs:1094-1109 | from every state where such a write is in the window, settling and ingesting the file loses it |
| Trust.ReconcileCanMask | crates/keys-engine/src/engine/mod.rs:1066-1112 | from every clean state the interleaving of a reconcile and an edit that loses the edit |
| Trust.AdoptionCanMask | crates/keys-engine/src/reconcile.rs:667-709 | from every clean state the interleaving of an adopting save and an edit that loses the edit |
| SavedFile.SavesRobustExactly | crates/keys-engine/src/save.rs:234-307 | over all continuations by any number of saves the file can be relied on if and only if no stale capture is in flight |
| SavedFile.RobustExactly | crates/keys-engine/src/save.rs:234-307 | all along a run with foreign writers and reconciles, whoever records next, a mirror that counts as saved has its contents in the file, if and only if no step is one of four kinds |
| SavedFile.RobustMeans | crates/keys-engine/src/save.rs:234-307 | what that promises: the file agrees now and after whichever connection records next |
| SavedFile.InOrderIsSafe | crates/keys-engine/src/save.rs:234-307 | writing a capture no older than any already written or recorded never overrides |
| SavedFile.TwoCapturesCanLose | crates/keys-engine/src/save.rs:234-307 | two captures in flight that differ always have a losing continuation |
| SavedFile.OverlappingSavesLoseTheFile | crates/keys-engine/src/save.rs:234-307 | a concrete interleaving of two saves that ends counted as saved with older contents in the file |
| SavedFile.ExclusiveRunsAreSafe | crates/keys-engine/src/save.rs:234-307 | one discipline under which nothing overrides: one save at a time and no other program writing |
| FullIngest.WalkGroups | crates/keys-engine/src/ingest.rs:302-349 | the recursive walk inserts one row per group with its parent and position |
| FullIngest.WalkEntries | crates/keys-engine/src/ingest.rs:352-395 | the recursive walk inserts every entry with the flag handed down |
| FullIngest.FlagIsWalk | crates/keys-engine/src/ingest.rs:352-395 | the flag handed down top-down equals the bottom-up walk to the bin for every entry |
| EntryFields.InsertFields | crates/keys-engine/src/ingest.rs:482-514 | the field rows are the password's slot and one row for each field not skipped; the insert fails exactly if two such fields of one kind share a name |
| EntryFields.InsertRows | crates/keys-engine/src/ingest.rs:482-532 | an entry's insert fails exactly on a repeated field of one kind or custom-data key |
| FullIngest.IngestVault | crates/keys-engine/src/ingest.rs:153-264 | the mirror holds the vault: for each group its columns, parent and position, for each entry the whole entry with its history, in its group, for each deletion its time, and nothing else; one tree, at most one bin, exact flags, parked conflicts kept; it fails exactly on a repeated group, entry, field, custom-data or deletion key, and then changes nothing |
| Devices.OpenAndExchange | crates/keys-engine/src/engine/conflict.rs:426-449 | two mirrors that open two files of one vault and pull each other's files converge; opening fails exactly on a repeated key, and then a pull exactly on a merge that repeats a key |
| Devices.PullOwn | crates/keys-engine/src/ingest.rs:748-1129 | a mirror that pulls the file of its own vault writes exactly if one of its deletion times has a fraction of a second |
| Devices.OpenAndPullOwn | crates/keys-engine/src/ingest.rs:748-1129 | opening a file and pulling that same file leaves every projected table where opening left it, but for fractions of deletion times, and the write counter exactly if there are none |
| Resolve.Engine.ApplyConflictResolution | crates/keys-engine/src/conflict_resolution.rs:119-223 | consumes the stash first; applies exactly if the merge matches and the mirror has not moved; then a first transaction leaves exactly the groups, entries with their histories and deletions of the merge, with the resolutions recorded and all conflict rows, and after it the rows of the entries the choices name go |
| Resolve.LeftRowGoes | crates/keys-engine/src/ingest.rs:957-978 | a row left by a stop between the two goes with the next pass over that peer, unless the peer edited since |
| Resolve.RecordResolutions | crates/keys-engine/src/conflict_resolution.rs:240-283 | exactly the entries with a chosen field, attachment or icon get a resolution time of now to the second, or keep a later one; edit-or-delete choices get none |
| Resolve.ResolverPrevails | crates/keys-engine/src/conflict_resolution.rs:240-283 | after recording, the other side adopts unless it edited later, in which case both hold the conflict open |
| History.PickSurvivors | crates/keys-engine/src/mutations.rs:351-380 | a row is kept exactly if the newer kept rows leave room under both caps; a negative cap never binds |
| History.WithinCaps | crates/keys-engine/src/mutations.rs:372-380 | survivors are within both caps |
| History.DroppedDoNotFit | crates/keys-engine/src/mutations.rs:372-380 | no dropped row could be added back without breaching a cap |
| History.PickIsUnique | crates/keys-engine/src/mutations.rs:372-380 | those two caps determine the survivors |
| History.NewestWithoutSizeCap | crates/keys-engine/src/mutations.rs:372-380 | with the size cap not binding the survivors are exactly the newest, as many as allowed |
| History.SuffixExactly | crates/keys-engine/src/mutations.rs:372-380 | the survivors are a run of the newest exactly if a clean cut exists |
| History.SizeCapKeepsOlder | crates/keys-engine/src/mutations.rs:372-380 | a concrete history where a newer row goes and an older one stays |
| History.Repack | crates/keys-engine/src/mutations.rs:409-428 | survivors are renumbered 0..N in order, every single renumbering finding its key free |
| History.PruneHistory | crates/keys-engine/src/mutations.rs:301-430 | the rows become the survivors, densely numbered, and every dropped snapshot was handed to the tombstone pass |
| History.ArchiveSnapshot | crates/keys-engine/src/mutations.rs:260-286 | the history becomes the old one with the new snapshot last, pruned by the caps |
| SaveEntry.TrimMeans | crates/keys-engine/src/mutations.rs:651-658 | trimming leaves the stretch between the outermost characters that are not white space |
| SaveEntry.InsertTags | crates/keys-engine/src/mutations.rs:651-668 | the tags become the set of trimmed non-empty names |
| SaveEntry.WriteFields | crates/keys-engine/src/mutations.rs:843-884 | the password slot holds the password whatever the fields are called; every other name holds its last value |
| SaveEntry.NoOpExactly | crates/keys-engine/src/mutations.rs:931-1005 | comparing content before and after finds them equal exactly if the entry already held what was asked |
| SaveEntry.SaveEntry | crates/keys-engine/src/mutations.rs:797-948 | unchanged exactly if the row has the very title, username, url, notes, expiry, icon, fields and tags asked for, and then nothing is touched; else each column holds its own field of the request, one version is archived, and the custom data records the versions trimmed |
| SaveEntry.SaveTwice | crates/keys-engine/src/mutations.rs:797-948 | the same save a second time always changes nothing |
| GroupDelete.DeleteGroupRecursive | crates/keys-engine/src/mutations.rs:2656-2687 | exactly the subtree and its entries go, each with a tombstone, logged leaves first with parents |
| GroupDelete.DeleteDirectChildEntries | crates/keys-engine/src/mutations.rs:2627-2654 | exactly the entries of one group go, each tombstoned and logged once |
| GroupDelete.DeleteGroup | crates/keys-engine/src/mutations.rs:2528-2566 | the cascade for one group; below the root the rest stays one tree |
| GroupDelete.PurgeKeepsTree | crates/keys-engine/src/mutations.rs:2656-2687 | removing any set of whole subtrees below the root leaves one tree with every entry housed |
| GroupDelete.EmptyRecycleBin | crates/keys-engine/src/mutations.rs:2579-2614 | everything inside the bin goes with tombstones, the bin stays |
| GroupOps.PlacingKeepsTree | crates/keys-engine/src/mutations.rs:2725-2741 | placing a group under a parent keeps one tree exactly if the parent is not inside it |
| GroupOps.CreateGroup | crates/keys-engine/src/mutations.rs:2382-2424 | appends the group after its siblings; the tree keeps |
| GroupOps.MoveGroup | crates/keys-engine/src/mutations.rs:2689-2766 | succeeds exactly if both groups exist and the destination is not inside the moved one; then the row has the new parent, comes last there, and is stamped as touched and moved now; no other column or row changes and the tree keeps |
| GroupOps.RecycleGroup | crates/keys-engine/src/mutations.rs:2482-2507 | its outcomes, and that the tree keeps exactly if the bin is not inside the recycled group |
| GroupOps.ReorderGroup | crates/keys-engine/src/mutations.rs:2785-2872 | the sibling order, by sort order, then name, then id, becomes the old one with the target spliced in at its clamped place; nothing but sort orders and the target's stamp changes |
| GroupOps.SplicedMeans | crates/keys-engine/src/mutations.rs:2830-2841 | splicing is a permutation that leaves the others' relative order |
| LocalRuns.Run | crates/keys-engine/src/mutations.rs:1266-2872 | any run of all these operations that spares the root keeps one tree with every entry housed and at most one bin, up to the first that recycles a group holding the bin, which breaks it; and as far as that, exact flags stay exact all along if and only if no operation carries an entry across the bin's border |
| BinBorder.MoveKeepsFlagsExactly | crates/keys-engine/src/mutations.rs:2482-2507 | placing a group elsewhere keeps the flags exact if and only if it holds no entry, or holds the bin, or it and its destination are on one side of the border |
| RecycleBin.CreateRecycleBinGroup | crates/keys-engine/src/mutations.rs:1341-1373 | the new bin is last under the root with its fixed name and icon, and the only one flagged; other rows stay, and the settings name it as of now |
| RecycleBin.RecycleEntry | crates/keys-engine/src/mutations.rs:1266-1333 | into the bin, minted if need be, with where it came from, when it moved and when it was touched; left alone if already there, or deleted with a tombstone if there is no bin and none wanted |
| RecycleBin.RestoreEntry | crates/keys-engine/src/mutations.rs:1411-1462 | back to the recorded group if it exists outside the bin, else the root, stamped as moved now; a live entry stays where it is |
| RecycleBin.RecycleThenRestore | crates/keys-engine/src/mutations.rs:1266-1462 | any number of recyclings and one restore return a live entry to its group, exactly unless the first one deletes it |
| Blobs.BlobStore.CollectGarbage | crates/keys-engine/src/mutations.rs:151-202 | the pool keeps exactly what a link, a parked conflict or a well-formed history row refers to |
| Blobs.BlobStore.StoreAttachmentBlobs | crates/keys-engine/src/ingest.rs:2253-2263 | the pool gains the bytes of every attachment that does not dangle |
| Blobs.BlobStore.WritePeerEntry | crates/keys-engine/src/conflict_rows.rs:59-94 | the owner's row becomes the peer's record, with its bytes stored and listed |
| Blobs.BlobStore.DropConflictRows | crates/keys-engine/src/conflict_rows.rs:203-214 | all owners' rows for one entry and their references go, and no others |
| Blobs.BlobStore.DropConflictRowsForOwner | crates/keys-engine/src/conflict_rows.rs:223-238 | one owner's row and its references go, and no others |
| Blobs.StepIsSafe | crates/keys-engine/src/ingest.rs:269-294 | every operation, re-ingest and collection included, keeps links and parked references resolving, and history references that resolved |
| Blobs.RunIsSound | crates/keys-engine/src/mutations.rs:151-202 | so does every run |
| Blobs.ReingestHolds | crates/keys-engine/src/ingest.rs:548-563 | after a re-ingest the links and history rows are exactly those of the vault's entries: each attachment name links to the bytes of its first attachment, each history row refers to what its version has attached |
| Blobs.LinksAfter | crates/keys-engine/src/mutations.rs:2325-2376 | which link is there after each other operation, and to which bytes |
| Blobs.RowsAfter | crates/keys-engine/src/mutations.rs:2243-2262 | and which history row, with which hashes |
| Blobs.HistoryStaysResolved | crates/keys-engine/src/mutations.rs:171-190 | over every run a history reference that resolved resolves as long as its row is there |
| Blobs.ParkedSurvives | crates/keys-engine/src/ingest.rs:269-294 | a parked record and all its bytes outlive any run that does not drop or replace it |
| PeerRows.BindRef | crates/keys-engine/src/projection.rs:707-740 | a reference binds to bytes the pool has, or to bytes added once |
| PeerRows.ReconstructPeerEntry | crates/keys-engine/src/conflict_rows.rs:142-193 | rebuilding a parked row gives back what the peer's entry shows, growing the caller's pool only by bytes it did not hold |
| PredicateJson.RoundTrip | crates/keys-engine/src/predicate.rs:290-374 | decoding undoes encoding exactly for trees whose unknown nodes have an unrecognised type and whose durations are whole seconds |
| PredicateJson.UnknownExactly | crates/keys-engine/src/predicate.rs:351-387 | a node becomes the catch-all exactly if its type is unrecognised, and re-encodes verbatim |
| PredicateJson.KnownTypesAreTags | crates/keys-engine/src/predicate.rs:389-412 | the list of known types and the variants are in lock-step |
| PredicateJson.DecodesExactly | crates/keys-engine/src/predicate.rs:183-192 | a tree decodes exactly if every reachable node is well-shaped, and is evaluable exactly if none has an unrecognised type |
| PredicateJson.WholeBitsDecode | crates/keys-engine/src/predicate.rs:254-256 | a whole number of bits decodes alike with and without a fraction |
| PredicateJson.DecodedSettles | crates/keys-engine/src/predicate.rs:337-374 | what was decoded encodes and decodes to itself |
| KdfSpec.SplitOnceMeans | keyhole/src/kdf.rs:165-167 | a part splits at its first equals sign, exactly if it has one |
| KdfSpec.SplitJoined | keyhole/src/kdf.rs:161 | splitting finds exactly the parts that were joined |
| KdfSpec.ParseSpec | keyhole/src/kdf.rs:160-201 | the loop over the parts and the takes come to the specification, first error first |
| KdfSpec.FieldsExactly | keyhole/src/kdf.rs:163-171 | a field table results exactly if every part is a number field and no key repeats, and holds exactly those fields |
| KdfSpec.FirstBadPart | keyhole/src/kdf.rs:163-171 | a spec whose fields are refused is refused for its first bad part: no equals sign, no number after it, or a key that came before |
| KdfSpec.AcceptsExactly | keyhole/src/kdf.rs:160-201 | a spec means given settings exactly if it spells each of their fields once, in any order, and nothing else |
| KdfSpec.ParseUndoesFormat | keyhole/src/kdf.rs:139-201 | parsing undoes formatting for all settings |
| KdfSpec.FieldOrderIsFree | keyhole/src/kdf.rs:163-201 | any permutation of the fields means the same |
| KdfSpec.NormalFormDecides | keyhole/src/kdf.rs:139-201 | formatting what a spec means is a normal form |

## Left out

* The merge library's own decisions (classification, history fold, settings merge, applying a resolution): parameters, since their code is elsewhere.
* Encryption, base64 and SHA-256: a hash is injective, and a sealed value opens under the key that sealed it and under no other.
* SQL, transactions as such, foreign-key pragmas and schema migrations: tables are maps, a method is a transaction.
* Columns derived from others (strength, entropy, fingerprint, URL host, TOTP flag), timestamps other than modification and location, and creation times.
* The outcome lists a peer pass reports to its caller, its debug output, and the sweep over other owners' parked conflicts that follows it.
* The identity and test-vault gates before a pass; the model takes two vaults of one root.
* `create_entry`, per-field entry edits, restoring a version from history, smart-folder evaluation: they add easy members only.
* Two tables of one entry, `History.HistoryTable` and the rows of `SaveEntry.EntryState`, are modelled apart from `Mirror`, whose entries are whole values; so a cascade deletion of child rows is not modelled.
- PeerPass.IngestPeer: the peer's version that a conflict parks is taken to be the peer's entry itself; an unknown verdict, for which the code does nothing, is not modelled; of an entry's custom data only the history tombstones are values, the rest is keys; trees are limited to 10,000 groups, the depth at which the ancestor walk gives up.
- PeerPass.ReconcilePeerMeta: settings are the database name, the history caps and whether there is a bin, with the times of their changes; custom data is reduced to the resolution records.
- GroupTombstones.MaterializeGroupTombstones: trees are limited to 100,000 groups, the depth at which the code's walks stop.
- GroupSync.ReconcileGroupMetadata: built-in and custom icon are always present as columns; the absent built-in icon of older rows is not modelled.
- EntryRules.ResolutionTimes: records are per entry; the facet a record names plays no part in the pass.
- Watermark.RunKeepsInv: many connections interleave, so this protocol is a transition system on values, not a class; one transaction is one step and counts at least one write if it changes contents; a settle that a program embedding the engine calls for outside a reconcile is not modelled.
- StaleProjection.NothingIsLostExactly: the pass's own owner's conflict rows have a theorem of their own (`ConflictRowsSurviveExactly`); resolution records, which no pass writes, are no part of it. Tables whose groups are no tree, as recycling a group that holds the bin leaves them, are not among those a pass may find.
- Exchange.BinPointersMeet: that the later setting wins is assumed of the merge library (`LatestBinWins`), since its code is elsewhere.
- Trust.TrustedExactly: a reconcile that compared equal is taken to have found its own adoption writes in the file, as the code argues.
- Projection.ProjectionExists: siblings come in some order, not by their sort order; the code's projection fails on a table with several roots or a dangling parent, which sound tables do not have.
- ExchangedContents.MergesAgree: the merge library's verdicts on one pair are assumed alike on both sides (`AlikeVerdicts`), since its code is elsewhere; attachments and histories of the two sides are not compared.
- FullIngest.IngestVault: the vault's icons and settings have no repeated keys here, which would fail the insert too; the checks of the counters that guard it are in `Watermark` and `Resolve`; entries are stored as they are, without trimming tags or dropping attachments past the pool, and sibling positions past 32 bits are not clipped.
- Resolve.Engine.ApplyConflictResolution: resolution records travel with the vault it returns, since the mirror holds none; the event it emits is not modelled.
- Resolve.RecordResolutions: the library keeps one record per entry and facet; here records are appended, and what they mean is the latest time for each entry.
- History.PruneHistory: indices stay below the offset that renumbering uses, and a history's total size below 2^63.
- SaveEntry.SaveEntry: the tombstones of trimmed versions enter the entry's custom data through a parameter.
- GroupDelete.DeleteGroup: orphaned tags are not modelled.
- Blobs.StepIsSafe: a history row's text is reduced to the hashes that decode, and stored bytes are never altered.
- PredicateJson.RoundTrip: numbers are mathematical reals, so a bit count that is not finite is not modelled; the id library's text form is a parameter with an inverse; nesting is unlimited.
- PredicateJson.DecodesExactly: the array spelling of a node that the serialisation library also reads is an error here.
- KdfSpec.ParseSpec: the list of unknown fields in the last error is not carried.
