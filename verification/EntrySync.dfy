/** Folding a peer's entries and deletions into the mirror. */
module EntrySync {
  import opened Order
  import opened GroupGraph
  import opened Store
  import opened EntryRules
  import opened BinWalk
  import EntryFields
  import opened GroupSync

  // ----- the peer's entries

  datatype Placed = Placed(entry: Entry, group: Uuid)

  function PlaceAll(entries: seq<Entry>, group: Uuid): (placed: seq<Placed>)
    ensures |placed| == |entries| && forall i :: 0 <= i < |placed| ==> placed[i] == Placed(entries[i], group)
  {
    seq(|entries|, i requires 0 <= i < |entries| => Placed(entries[i], group))
  }

  /** Every entry below `group`, depth first, with the group that holds it. */
  function CollectEntries(group: GroupNode): seq<Placed>
    decreases group, 1
  {
    PlaceAll(group.entries, group.id) + CollectEntriesBelow(group.groups)
  }

  function CollectEntriesBelow(groups: seq<GroupNode>): seq<Placed>
    decreases groups, 0
  {
    if groups == [] then [] else CollectEntries(groups[0]) + CollectEntriesBelow(groups[1..])
  }

  lemma {:induction false} EntriesAreInGroups(group: GroupNode, parent: Option<Uuid>, sortOrder: int, i: nat)
    requires i < |CollectEntries(group)|
    ensures CollectEntries(group)[i].group in Ids(Collect(group, parent, sortOrder))
    decreases group, 1
  {
    var flat := Collect(group, parent, sortOrder);
    var rest := CollectChildren(group.groups, group.id, 0);
    if i < |group.entries| {
      assert flat[0].node.id == group.id;
    } else {
      EntriesBelowAreInGroups(group.groups, group.id, 0, i - |group.entries|);
      forall f | f in rest ensures f in flat {
      }
    }
  }

  lemma {:induction false} EntriesBelowAreInGroups(groups: seq<GroupNode>, parent: Uuid, position: int, i: nat)
    requires i < |CollectEntriesBelow(groups)|
    ensures CollectEntriesBelow(groups)[i].group in Ids(CollectChildren(groups, parent, position))
    decreases groups, 0
  {
    var first := Collect(groups[0], Some(parent), position);
    var rest := CollectChildren(groups[1..], parent, position + 1);
    var all := CollectChildren(groups, parent, position);
    assert forall f :: f in first || f in rest ==> f in all;
    var n := |CollectEntries(groups[0])|;
    if i < n {
      EntriesAreInGroups(groups[0], Some(parent), position, i);
    } else {
      EntriesBelowAreInGroups(groups[1..], parent, position + 1, i - n);
    }
  }

  predicate DistinctEntries(placed: seq<Placed>) {
    forall i, j :: 0 <= i < j < |placed| ==> placed[i].entry.id != placed[j].entry.id
  }

  function Index(placed: seq<Placed>): map<Uuid, Placed> {
    if placed == [] then map[]
    else Index(placed[..|placed| - 1])[placed[|placed| - 1].entry.id := placed[|placed| - 1]]
  }

  /** An index by id loses nothing when ids are unique. */
  lemma {:induction false} IndexMeans(placed: seq<Placed>)
    requires DistinctEntries(placed)
    ensures forall i :: 0 <= i < |placed| ==> placed[i].entry.id in Index(placed) && Index(placed)[placed[i].entry.id] == placed[i]
    ensures forall u :: u in Index(placed) ==> exists i :: 0 <= i < |placed| && placed[i].entry.id == u
  {
    if placed != [] {
      var rest := placed[..|placed| - 1];
      IndexMeans(rest);
      forall u | u in Index(placed) ensures exists i :: 0 <= i < |placed| && placed[i].entry.id == u {
        if u in Index(rest) {
          var i :| 0 <= i < |rest| && rest[i].entry.id == u;
          assert placed[i] == rest[i];
        } else {
          assert placed[|placed| - 1].entry.id == u;
        }
      }
    }
  }

  // ----- the merge library, and one pass

  datatype AttachmentChange = Take(name: string, bytes: seq<int>) | Drop(name: string)

  datatype Verdict =
    | InSync
    | AutoMerged(merged: Entry, changes: seq<AttachmentChange>)
    | Conflict

  datatype Folded = Folded(changed: bool, history: seq<Version>, tombstones: Option<string>)

  /** The merge library's functions, as this pass calls them: what two versions
      of an entry come to, the union of two histories, the deletions one history
      learns from the other, how many records exceed the history caps, and the
      merge of two vaults' settings. */
  datatype Brain = Brain(
    classify: (Entry, Entry) -> Verdict,
    fold: (Entry, Entry) -> Folded,
    scrub: (Entry, Entry) -> Folded,
    dropCount: seq<Version> -> nat,
    mergeMeta: (Meta, Meta) -> Meta)

  /** An auto-merge stays on local's entry and keeps local's placement. */
  ghost predicate KeepsPlacement(brain: Brain) {
    forall l, p {:trigger brain.classify(l, p)} :: brain.classify(l, p).AutoMerged? ==>
      var merged := brain.classify(l, p).merged;
      merged.id == l.id && merged.locationChanged == l.locationChanged && merged.previousParent == l.previousParent
  }

  /** What decides a shared entry, beside its two versions. `latest` is the last
      instant of the clock. */
  datatype Rules = Rules(brain: Brain, latest: int, localResolved: map<Uuid, int>, peerResolved: map<Uuid, int>)

  /** What one pass knows: the peer `owner`, and both vaults as they were when it
      began. */
  datatype Pass = Pass(rules: Rules, owner: string, root: Uuid,
                       local: map<Uuid, Placed>, peer: map<Uuid, Placed>,
                       localTomb: map<Uuid, Option<int>>, peerTomb: map<Uuid, Option<int>>)

  function StartPass(brain: Brain, owner: string, latest: int, local: Vault, peer: Vault): Pass {
    Pass(Rules(brain, latest, ResolutionTimes(local.resolutions), ResolutionTimes(peer.resolutions)),
         owner, local.root.id,
         Index(CollectEntries(local.root)), Index(CollectEntries(peer.root)),
         TombstoneMap(local.deletedObjects), TombstoneMap(peer.deletedObjects))
  }

  function Lookup(times: map<Uuid, int>, u: Uuid): Option<int> {
    if u in times then Some(times[u]) else None
  }

  // ----- a shared entry

  /** Which history a verdict leaves behind, and what to fold into it. */
  datatype HistoryBase = Held | FoldFrom(base: Entry, other: Entry)

  datatype Outcome = Outcome(row: EntryRow, parked: bool, base: HistoryBase, written: bool)

  predicate Records(history: seq<Version>, v: Version) {
    exists i :: 0 <= i < |history| && SameContent(history[i], v)
  }

  function WithPreMergeSnapshot(merged: Entry, movesLocal: bool, local: Entry, peer: Entry): Entry {
    if movesLocal && !Records(local.history, local.live) && !Records(peer.history, local.live)
    then merged.(history := merged.history + [local.live]) else merged
  }

  function WithoutAttachment(attachments: seq<Attachment>, name: string): seq<Attachment> {
    if attachments == [] then []
    else (if attachments[0].name == name then [] else [attachments[0]]) + WithoutAttachment(attachments[1..], name)
  }

  function ApplyChanges(attachments: seq<Attachment>, changes: seq<AttachmentChange>): seq<Attachment>
    decreases changes
  {
    if changes == [] then attachments
    else
      var rest := WithoutAttachment(attachments, changes[0].name);
      ApplyChanges(if changes[0].Take? then rest + [Attachment(changes[0].name, Some(changes[0].bytes), false)] else rest,
                   changes[1..])
  }

  function DecideFor(rules: Rules, local: Entry, peer: Entry): Decision {
    Decide(Lookup(rules.localResolved, peer.id), Lookup(rules.peerResolved, peer.id), local.live.modified, peer.live.modified)
  }

  function ApplyVerdict(rules: Rules, row: EntryRow, local: Entry, peer: Entry): Outcome {
    match rules.brain.classify(local, peer)
    case InSync => Outcome(row, false, FoldFrom(local, peer), false)
    case AutoMerged(merged, changes) =>
      var moves := MovesLocal(local.live, merged.live, changes != []);
      var time := MergedTime(merged.live, moves, local.live, peer.live, rules.latest);
      var base := WithPreMergeSnapshot(merged.(live := merged.live.(modified := time)), moves, local, peer);
      var live := base.live.(attachments := ApplyChanges(base.live.attachments, changes));
      Outcome(row.(entry := base.(live := live)), false, FoldFrom(base, peer), true)
    case Conflict =>
      match DecideFor(rules, local, peer)
      case LocalHolds => Outcome(row, false, Held, false)
      case AdoptPeer => Outcome(row.(entry := peer), false, FoldFrom(peer, local), true)
      case HoldOpen => Outcome(row, true, Held, false)
  }

  ghost function WithLocation(groups: map<Uuid, GroupRow>, row: EntryRow, peer: Placed): EntryRow {
    if CompareLocations(LocationOf(peer.entry, peer.group), RowLocation(row)) != Greater || peer.group !in groups then row
    else EntryRow(peer.group, InBin(groups, peer.group),
                  row.entry.(locationChanged := FloorOption(peer.entry.locationChanged),
                             previousParent := peer.entry.previousParent))
  }

  function FoldedHistory(brain: Brain, base: HistoryBase, local: Entry, peer: Entry): Option<Folded> {
    match base
    case Held =>
      if local.historyTombstones.None? && peer.historyTombstones.None? then None
      else if brain.scrub(local, peer).changed then Some(brain.scrub(local, peer)) else None
    case FoldFrom(b, o) =>
      if b.historyTombstones.None? && o.historyTombstones.None?
         && HistoriesIdentical(b.history, o.history) && brain.dropCount(b.history) == 0 then None
      else if brain.fold(b, o).changed then Some(brain.fold(b, o)) else None
  }

  function WithHistory(row: EntryRow, folded: Option<Folded>): EntryRow {
    match folded
    case None => row
    case Some(f) => row.(entry := row.entry.(history := f.history, historyTombstones := f.tombstones))
  }

  /** The row of an entry both sides hold, after the pass. */
  ghost function SharedRow(rules: Rules, groups: map<Uuid, GroupRow>, row: EntryRow, local: Entry, peer: Placed): EntryRow {
    var outcome := ApplyVerdict(rules, row, local, peer.entry);
    WithHistory(WithLocation(groups, outcome.row, peer), FoldedHistory(rules.brain, outcome.base, local, peer.entry))
  }

  /** The pass writes a projected row for a shared entry. */
  ghost predicate SharedWrites(rules: Rules, groups: map<Uuid, GroupRow>, row: EntryRow, local: Entry, peer: Placed) {
    var outcome := ApplyVerdict(rules, row, local, peer.entry);
    || outcome.written
    || WithLocation(groups, outcome.row, peer) != outcome.row
    || FoldedHistory(rules.brain, outcome.base, local, peer.entry).Some?
  }

  // ----- all entries

  /** A peer entry we do not hold comes in unless our deletion of it stands. */
  ghost predicate Added(pass: Pass, u: Uuid) {
    && u in pass.peer && u !in pass.local
    && (u in pass.localTomb ==> LiveEditWins(pass.peer[u].entry.live.modified, pass.localTomb[u]))
  }

  /** An entry the peer deleted goes unless our edit of it stands. */
  ghost predicate Dropped(pass: Pass, u: Uuid) {
    && u in pass.local && u !in pass.peer && u in pass.peerTomb
    && !LiveEditWins(pass.local[u].entry.live.modified, pass.peerTomb[u])
  }

  ghost function AddedRow(pass: Pass, groups: map<Uuid, GroupRow>, u: Uuid): EntryRow
    requires u in pass.peer
  {
    EntryRow(if pass.peer[u].group in groups then pass.peer[u].group else pass.root, false, pass.peer[u].entry)
  }

  /** The verdict replaces the row's live version: an auto-merge or an adoption. */
  predicate Overwrites(rules: Rules, local: Entry, peer: Entry) {
    match rules.brain.classify(local, peer)
    case InSync => false
    case AutoMerged(_, _) => true
    case Conflict => DecideFor(rules, local, peer) == AdoptPeer
  }

  predicate HeldOpen(rules: Rules, local: Entry, peer: Entry) {
    rules.brain.classify(local, peer).Conflict? && DecideFor(rules, local, peer) == HoldOpen
  }

  /** The history base of a verdict; it does not depend on the row. */
  function BaseFor(rules: Rules, local: Entry, peer: Entry): HistoryBase {
    ApplyVerdict(rules, EntryRow(0, false, local), local, peer).base
  }

  /** The history the pass writes for a shared entry, if it writes one. */
  function Rewritten(rules: Rules, local: Entry, peer: Entry): Option<Folded> {
    FoldedHistory(rules.brain, BaseFor(rules, local, peer), local, peer)
  }

  /** What of a verdict depends on the two versions alone. */
  lemma VerdictParts(rules: Rules, row: EntryRow, local: Entry, peer: Entry)
    ensures var outcome := ApplyVerdict(rules, row, local, peer);
            && outcome.written == Overwrites(rules, local, peer)
            && outcome.parked == HeldOpen(rules, local, peer)
            && outcome.base == BaseFor(rules, local, peer)
            && (!Overwrites(rules, local, peer) ==> outcome.row == row)
  {
  }

  // ----- what fails a pass

  /** The entry whose rows an overwriting verdict inserts. */
  function Inserted(rules: Rules, local: Entry, peer: Entry): Entry {
    match rules.brain.classify(local, peer)
    case AutoMerged(merged, _) => merged
    case _ => peer
  }

  /** Some child row of the entry is written, which fails without the entry's row. */
  predicate NeedsRow(rules: Rules, local: Entry, peer: Entry) {
    || Overwrites(rules, local, peer)
    || (Rewritten(rules, local, peer).Some?
        && (Rewritten(rules, local, peer).value.history != [] || Rewritten(rules, local, peer).value.tombstones.Some?))
  }

  /** The pass fails on the peer's entry `u`: its row is there although the projection
      had none, or is needed and gone since; or two of its rows would have one key. */
  ghost predicate Clashes(pass: Pass, entries: map<Uuid, EntryRow>, u: Uuid)
    requires u in pass.peer
  {
    var peer := pass.peer[u].entry;
    if u in pass.local then
      var local := pass.local[u].entry;
      if u in entries then Overwrites(pass.rules, local, peer) && !EntryFields.EntryFits(Inserted(pass.rules, local, peer))
      else NeedsRow(pass.rules, local, peer)
    else Added(pass, u) && (u in entries || !EntryFields.EntryFits(peer))
  }

  /** Otherwise the pass commits. */
  ghost predicate Commits(pass: Pass, entries: map<Uuid, EntryRow>) {
    forall u :: u in pass.peer ==> !Clashes(pass, entries, u)
  }

  // ----- what it leaves

  /** The row the walk over the peer's entries leaves for `u`. */
  ghost function WalkedRow(pass: Pass, groups: map<Uuid, GroupRow>, entries: map<Uuid, EntryRow>, u: Uuid): EntryRow
    requires u in pass.peer && (u in pass.local ==> u in entries)
  {
    if u in pass.local then SharedRow(pass.rules, groups, entries[u], pass.local[u].entry, pass.peer[u])
    else AddedRow(pass, groups, u)
  }

  /** The walk sets a row for the peer's entry `u`. */
  ghost predicate Sets(pass: Pass, entries: map<Uuid, EntryRow>, u: Uuid) {
    u in pass.peer && if u in pass.local then u in entries else Added(pass, u)
  }

  /** The rows that walk sets. */
  ghost function WalkedRows(pass: Pass, groups: map<Uuid, GroupRow>, entries: map<Uuid, EntryRow>): map<Uuid, EntryRow> {
    map u | u in pass.peer && Sets(pass, entries, u) :: WalkedRow(pass, groups, entries, u)
  }

  ghost function WalkedEntries(pass: Pass, groups: map<Uuid, GroupRow>, entries: map<Uuid, EntryRow>): map<Uuid, EntryRow> {
    entries + WalkedRows(pass, groups, entries)
  }

  ghost function AddedIds(pass: Pass): set<Uuid> {
    set u | u in pass.peer && Added(pass, u)
  }

  /** The tombstones the walk removes: of added entries, as far as the projection had
      them. */
  ghost function Scrubbed(pass: Pass): set<Uuid> {
    AddedIds(pass) * pass.localTomb.Keys
  }

  /** The conflicts the pass holds open. */
  ghost function ParkedBy(pass: Pass): map<Uuid, Entry> {
    map u | u in pass.peer && u in pass.local && HeldOpen(pass.rules, pass.local[u].entry, pass.peer[u].entry) ::
      pass.peer[u].entry
  }

  /** `owner`'s conflict rows for the entries in `touched` become `parked`; every
      other row stays. */
  ghost function OwnerRows(conflicts: map<Owned, Entry>, owner: string, touched: set<Uuid>, parked: map<Uuid, Entry>): map<Owned, Entry> {
    map k | k in conflicts.Keys + (set u | u in parked :: Owned(owner, u))
         && (if k.owner == owner && k.entry in touched then k.entry in parked else k in conflicts) ::
      if k.owner == owner && k.entry in touched then parked[k.entry] else conflicts[k]
  }

  ghost function ConflictsAfter(pass: Pass, conflicts: map<Owned, Entry>): map<Owned, Entry> {
    OwnerRows(conflicts, pass.owner, pass.peer.Keys * pass.local.Keys, ParkedBy(pass))
  }

  /** The tables the walk over the peer's entries works on. */
  datatype EntryTables = EntryTables(entries: map<Uuid, EntryRow>, tombstones: map<Uuid, Option<int>>, conflicts: map<Owned, Entry>)

  ghost function Walked(pass: Pass, groups: map<Uuid, GroupRow>, t: EntryTables): EntryTables {
    EntryTables(WalkedEntries(pass, groups, t.entries), t.tombstones - Scrubbed(pass), ConflictsAfter(pass, t.conflicts))
  }

  ghost function WithoutDropped(pass: Pass, entries: map<Uuid, EntryRow>): map<Uuid, EntryRow> {
    map u | u in entries && !Dropped(pass, u) :: entries[u]
  }

  ghost function EntriesAfter(pass: Pass, groups: map<Uuid, GroupRow>, entries: map<Uuid, EntryRow>): map<Uuid, EntryRow> {
    WithoutDropped(pass, WalkedEntries(pass, groups, entries))
  }

  /** The peer's deletions joined with ours, never for a live entry. */
  ghost function UnionTombstones(ours: map<Uuid, Option<int>>, peers: map<Uuid, Option<int>>, live: set<Uuid>): map<Uuid, Option<int>> {
    map u | u in ours.Keys + peers.Keys && (u in ours || u !in live) ::
      if u !in peers || u in live then ours[u]
      else if u in ours then Earliest(ours[u], peers[u])
      else peers[u]
  }

  ghost function TombstonesAfter(pass: Pass, groups: map<Uuid, GroupRow>, entries: map<Uuid, EntryRow>,
                                 tombstones: map<Uuid, Option<int>>): map<Uuid, Option<int>> {
    UnionTombstones(tombstones - Scrubbed(pass), pass.peerTomb, EntriesAfter(pass, groups, entries).Keys)
  }

  /** Where the projection had all tombstones there are, the walk removes those of
      all added entries. */
  lemma ScrubsAllAdded(pass: Pass, tombstones: map<Uuid, Option<int>>)
    requires tombstones.Keys <= pass.localTomb.Keys
    ensures tombstones - Scrubbed(pass) == tombstones - AddedIds(pass)
  {
  }

  /** An entry both sides hold stays where it is or goes where the peer has it. */
  lemma SharedRowGroup(rules: Rules, groups: map<Uuid, GroupRow>, row: EntryRow, local: Entry, peer: Placed)
    ensures var after := SharedRow(rules, groups, row, local, peer);
            after.group == row.group || (after.group == peer.group && peer.group in groups)
  {
  }

  /** The entry table after the pass, entry by entry. */
  lemma EntriesAfterAt(pass: Pass, groups: map<Uuid, GroupRow>, entries: map<Uuid, EntryRow>, u: Uuid)
    ensures u in EntriesAfter(pass, groups, entries) <==> (u in entries && !Dropped(pass, u)) || Added(pass, u)
    ensures u in EntriesAfter(pass, groups, entries) ==>
              EntriesAfter(pass, groups, entries)[u] == if Sets(pass, entries, u) then WalkedRow(pass, groups, entries, u) else entries[u]
  {
  }
}
