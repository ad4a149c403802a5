/** Vaults that an exchange leaves different on the two sides, and passes that lose a
    write. */
module Cases {
  import opened Order
  import opened Store
  import opened GroupTombstones
  import opened GroupSync
  import opened EntryRules
  import opened EntrySync
  import opened PeerPass
  import opened PassSoundness
  import opened Exchange
  import opened ExchangedContents
  import opened StaleProjection
  import opened FullIngest

  /** The tables of a mirror that has just opened `v`. */
  function Opened(v: Vault): Tables {
    Tables(InsertGroups(map[], Flatten(v.root), v.meta.recycleBin), InsertEntries(map[], Flag(v.root, v.meta.recycleBin, false)),
           InsertDeletions(v.deletedObjects), map[], v.icons, v.meta.settings)
  }

  function Dated(modified: int): Version {
    Version("", "", "", "", "", [], [], [], 0, Some(modified))
  }

  function Node(id: Uuid, entries: seq<Entry>, groups: seq<GroupNode>): GroupNode {
    GroupNode(id, "", "", 0, None, Some(0), None, entries, groups)
  }

  /** A root with the groups 2 and 3, the entries in one of them. */
  function Small(entries: seq<Entry>, inThree: bool, deleted: seq<DeletedObject>, resolutions: seq<Resolution>): Vault {
    Vault(Node(1, [], [Node(2, if inThree then [] else entries, []), Node(3, if inThree then entries else [], [])]),
          deleted, Meta(Settings("", None, -1, -1, None, false, None), None), resolutions, map[])
  }

  function Home(inThree: bool): Uuid {
    if inThree then 3 else 2
  }

  lemma SmallFlat(entries: seq<Entry>, inThree: bool, deleted: seq<DeletedObject>, resolutions: seq<Resolution>)
    ensures var v := Small(entries, inThree, deleted, resolutions);
            && Flatten(v.root) == [FlatGroup(v.root, None, 0), FlatGroup(v.root.groups[0], Some(1), 0), FlatGroup(v.root.groups[1], Some(1), 1)]
            && CollectEntries(v.root) == PlaceAll(entries, Home(inThree))
  {
    var v := Small(entries, inThree, deleted, resolutions);
    var two, three := v.root.groups[0], v.root.groups[1];
    assert v.root.groups == [two, three] && [two, three][1..] == [three] && [three][1..] == [];
    assert Collect(two, Some(1), 0) == [FlatGroup(two, Some(1), 0)] && Collect(three, Some(1), 1) == [FlatGroup(three, Some(1), 1)];
    assert CollectChildren([three], 1, 1) == [FlatGroup(three, Some(1), 1)];
    assert CollectChildren([two, three], 1, 0) == [FlatGroup(two, Some(1), 0), FlatGroup(three, Some(1), 1)];
    assert CollectEntries(two) == PlaceAll(two.entries, 2) && CollectEntries(three) == PlaceAll(three.entries, 3);
    assert CollectEntriesBelow([three]) == PlaceAll(three.entries, 3);
    assert CollectEntriesBelow([two, three]) == PlaceAll(two.entries, 2) + PlaceAll(three.entries, 3);
    assert PlaceAll([], 1) == [] && PlaceAll([], 2) == [] && PlaceAll([], 3) == [];
  }

  /** At most one entry, edited at a whole second, and at most one deletion, of
      something else. */
  predicate Slight(entries: seq<Entry>, deleted: seq<DeletedObject>) {
    && |entries| <= 1 && |deleted| <= 1
    && (entries != [] ==> Whole(entries[0].live.modified))
    && (entries != [] && deleted != [] ==> entries[0].id != deleted[0].id)
  }

  lemma SmallIsValid(entries: seq<Entry>, inThree: bool, deleted: seq<DeletedObject>, resolutions: seq<Resolution>)
    requires Slight(entries, deleted)
    ensures var v := Small(entries, inThree, deleted, resolutions); ValidVault(v) && WholeEdits(v) && BinResolves(v)
  {
    SmallFlat(entries, inThree, deleted, resolutions);
    ThreeGroups(Flatten(Small(entries, inThree, deleted, resolutions).root), 1);
  }

  /** Opening such a vault gives a replica that is ready for an exchange. */
  lemma SmallOpens(entries: seq<Entry>, inThree: bool, deleted: seq<DeletedObject>, resolutions: seq<Resolution>)
    requires Slight(entries, deleted)
    ensures var v := Small(entries, inThree, deleted, resolutions);
            Represents(Opened(v), v) && NoOwnTombstone(Opened(v)) && WholeEdits(v)
  {
    SmallIsValid(entries, inThree, deleted, resolutions);
    SmallEntries(entries, inThree, deleted, resolutions);
    OneDeletion(deleted);
    OpensApart(Small(entries, inThree, deleted, resolutions));
  }

  lemma OpensApart(v: Vault)
    requires ValidVault(v) && BinResolves(v) && DistinctDeletions(v.deletedObjects)
    requires Index(CollectEntries(v.root)).Keys !! TombstoneMap(v.deletedObjects).Keys
    ensures Represents(Opened(v), v) && NoOwnTombstone(Opened(v))
  {
    Ingested(Opened(v), v);
  }

  /** What such a vault holds. */
  lemma SmallEntries(entries: seq<Entry>, inThree: bool, deleted: seq<DeletedObject>, resolutions: seq<Resolution>)
    requires |entries| <= 1
    ensures Index(CollectEntries(Small(entries, inThree, deleted, resolutions).root)) ==
              if entries == [] then map[] else map[entries[0].id := EntrySync.Placed(entries[0], Home(inThree))]
  {
    SmallFlat(entries, inThree, deleted, resolutions);
    IndexOfOne(PlaceAll(entries, Home(inThree)));
  }

  lemma IndexOfOne(placed: seq<EntrySync.Placed>)
    requires |placed| <= 1
    ensures Index(placed) == if placed == [] then map[] else map[placed[0].entry.id := placed[0]]
  {
    if placed != [] {
      assert placed[..0] == [];
    }
  }

  lemma OneDeletion(deleted: seq<DeletedObject>)
    requires |deleted| <= 1
    ensures TombstoneMap(deleted) == InsertDeletions(deleted) == if deleted == [] then map[] else map[deleted[0].id := deleted[0].deletedAt]
  {
    if deleted != [] {
      assert deleted[..0] == [];
    }
  }

  lemma SmallGroups(entries: seq<Entry>, inThree: bool, deleted: seq<DeletedObject>, resolutions: seq<Resolution>, u: Uuid)
    ensures u in Opened(Small(entries, inThree, deleted, resolutions)).groups <==> 1 <= u <= 3
  {
    var v := Small(entries, inThree, deleted, resolutions);
    SmallFlat(entries, inThree, deleted, resolutions);
    ThreeGroups(Flatten(v.root), u);
  }

  lemma ThreeGroups(flat: seq<FlatGroup>, u: Uuid)
    requires |flat| == 3 && flat[0].node.id == 1 && flat[1].node.id == 2 && flat[2].node.id == 3
    ensures DistinctIds(flat) && (u in InsertGroups(map[], flat, None) <==> 1 <= u <= 3)
  {
    InsertedGroups(map[], flat, None);
    if u in Ids(flat) {
      var f :| f in flat && f.node.id == u;
    }
    if 1 <= u <= 3 {
      assert flat[u - 1] in flat;
    }
  }

  /** All of that together. */
  lemma SmallHolds(entries: seq<Entry>, inThree: bool, deleted: seq<DeletedObject>, resolutions: seq<Resolution>, u: Uuid)
    requires Slight(entries, deleted)
    ensures var v := Small(entries, inThree, deleted, resolutions);
            var t := Opened(v);
            && Represents(t, v) && NoOwnTombstone(t) && WholeEdits(v) && v.root.id == 1
            && (u in t.groups <==> 1 <= u <= 3)
            && t.tombstones == (if deleted == [] then map[] else map[deleted[0].id := deleted[0].deletedAt])
            && Index(CollectEntries(v.root)) == if entries == [] then map[] else map[entries[0].id := EntrySync.Placed(entries[0], Home(inThree))]
  {
    SmallOpens(entries, inThree, deleted, resolutions);
    SmallEntries(entries, inThree, deleted, resolutions);
    SmallGroups(entries, inThree, deleted, resolutions, u);
    OneDeletion(deleted);
  }

  // ----- a deletion with a fraction of a second

  lemma JoinedAt(ours: map<Uuid, Option<int>>, theirs: map<Uuid, Option<int>>, live: set<Uuid>, u: Uuid)
    requires u !in live
    ensures u in ours && u !in theirs ==> u in UnionTombstones(ours, theirs, live) && UnionTombstones(ours, theirs, live)[u] == ours[u]
    ensures u !in ours && u in theirs ==> u in UnionTombstones(ours, theirs, live) && UnionTombstones(ours, theirs, live)[u] == theirs[u]
  {
  }

  /** The tombstone of something that is no group is there after the pass as it was
      before groups were judged. */
  lemma NotAGroup(r: Replicas, brain: Brain, owner: string, latest: int, u: Uuid)
    requires Ready(r) && u !in r.ta.groups && u !in r.tb.groups
    ensures var pass, merged, after := PassOf(r, brain, owner, latest), AfterPeerGroups(r.ta.groups, r.vb.root), After(r, brain, owner, latest);
            var joined := TombstonesAfter(pass, merged, r.ta.entries, r.ta.tombstones);
            u in joined ==> u in after.tombstones && after.tombstones[u] == joined[u]
  {
    MergedTreesAgree(r);
    GroupsAfter(r.ta, r.va, Handed(r.vb), brain, owner, latest);
  }

  /** A deletion of something neither live nor known on the other side keeps its
      fraction here and arrives without it there. */
  lemma FreshDeletionStaysApart(r: Replicas, brainA: Brain, brainB: Brain, owners: (string, string), latest: int, u: Uuid)
    requires Ready(r) && u in r.ta.tombstones && u !in r.tb.tombstones
    requires u !in After(r, brainA, owners.0, latest).entries
    requires u !in r.ta.groups && u !in r.tb.groups
    ensures var a, b := After(r, brainA, owners.0, latest), After(Swap(r), brainB, owners.1, latest);
            && u in a.tombstones && a.tombstones[u] == r.ta.tombstones[u]
            && u in b.tombstones && b.tombstones[u] == FloorOption(r.ta.tombstones[u])
  {
    FlooredMap(r.va.deletedObjects);
    FlooredMap(r.vb.deletedObjects);
    LiveEntriesAgree(r, brainA, brainB, owners, latest);
    LiveAfter(r, brainA, owners.0, latest, u);
    NotAGroup(r, brainA, owners.0, latest, u);
    NotAGroup(Swap(r), brainB, owners.1, latest, u);
    var live := After(r, brainA, owners.0, latest).entries.Keys;
    var passA, passB := PassOf(r, brainA, owners.0, latest), PassOf(Swap(r), brainB, owners.1, latest);
    JoinedAt(r.ta.tombstones - AddedIds(passA), FloorTimes(r.tb.tombstones), live, u);
    JoinedAt(r.tb.tombstones - AddedIds(passB), FloorTimes(r.ta.tombstones), live, u);
  }

  /** A merge library that finds a conflict in every shared entry. */
  function Disputing(): Brain {
    Brain((a: Entry, b: Entry) => Conflict,
          (a: Entry, b: Entry) => Folded(false, a.history, None),
          (a: Entry, b: Entry) => Folded(false, a.history, None),
          (h: seq<Version>) => 0,
          (a: Meta, b: Meta) => a)
  }

  function Plain(u: Uuid, stamp: Option<int>): Entry {
    Entry(u, Dated(0), [], None, stamp, None, [])
  }

  function DeletedHere(u: Uuid, at: int): Replicas {
    var va, vb := Small([], false, [DeletedObject(u, Some(at))], []), Small([Plain(u, None)], false, [], []);
    Replicas(Opened(va), va, Opened(vb), vb)
  }

  lemma DeletedHereHolds(u: Uuid, at: int)
    requires u > 3
    ensures var r := DeletedHere(u, at);
            && Ready(r)
            && r.ta.tombstones == map[u := Some(at)] && r.tb.tombstones == map[]
            && u !in r.ta.groups && u !in r.tb.groups
            && Index(CollectEntries(r.va.root)) == map[]
            && Index(CollectEntries(r.vb.root)) == map[u := EntrySync.Placed(Plain(u, None), 2)]
  {
    DeletedSideHolds(u, [], [DeletedObject(u, Some(at))]);
    DeletedSideHolds(u, [Plain(u, None)], []);
  }

  /** Either side: it has the entry, or its deletion. */
  lemma DeletedSideHolds(u: Uuid, entries: seq<Entry>, deleted: seq<DeletedObject>)
    requires u > 3 && Slight(entries, deleted)
    ensures var v := Small(entries, false, deleted, []);
            && Represents(Opened(v), v) && NoOwnTombstone(Opened(v)) && WholeEdits(v) && v.root.id == 1
            && u !in Opened(v).groups
            && Opened(v).tombstones == (if deleted == [] then map[] else map[deleted[0].id := deleted[0].deletedAt])
            && Index(CollectEntries(v.root)) == if entries == [] then map[] else map[entries[0].id := EntrySync.Placed(entries[0], 2)]
  {
    SmallHolds(entries, false, deleted, [], u);
  }

  /** One side deletes an entry that the other still holds. After the exchange it is
      gone on both sides; the times differ exactly if it was deleted at a fraction
      of a second. */
  lemma DeletionTimesCanDiffer(u: Uuid, at: int, latest: int)
    requires u > 3 && at >= 0
    ensures var r := DeletedHere(u, at);
            && Ready(r)
            && var a, b := After(r, Disputing(), "b", latest), After(Swap(r), Disputing(), "a", latest);
               && u !in a.entries && u !in b.entries
               && u in a.tombstones && a.tombstones[u] == Some(at)
               && u in b.tombstones && b.tombstones[u] == Some(FloorToSecond(at))
  {
    var r := DeletedHere(u, at);
    DeletedHereHolds(u, at);
    LiveAfter(r, Disputing(), "b", latest, u);
    LiveEntriesAgree(r, Disputing(), Disputing(), ("b", "a"), latest);
    FreshDeletionStaysApart(r, Disputing(), Disputing(), ("b", "a"), latest, u);
  }

  // ----- an edit beside a deletion

  /** The tables once another connection has edited the entry. */
  function EditedSince(t: Tables, u: Uuid, edited: int): Tables {
    if u in t.entries then t.(entries := t.entries[u := t.entries[u].(entry := Edited(u, edited))]) else t
  }

  /** The second side of `DeletedHere` pulls the first's file. Since its projection
      another connection has edited the entry, later than the deletion; the entry goes
      all the same. */
  lemma EditBesideDeletionIsLost(u: Uuid, at: int, edited: int, brain: Brain, owner: string, latest: int)
    requires u > 3 && 0 <= at < edited
    ensures var r := DeletedHere(u, at);
            var t, pass := EditedSince(r.tb, u, edited), StartPass(brain, owner, latest, r.vb, Handed(r.va));
            && MayFind(pass, t, r.vb.root.id) && u in t.entries && u in pass.peerTomb
            && LiveEditWins(t.entries[u].entry.live.modified, pass.peerTomb[u])
            && u !in PeerPass.PeerPass(brain, owner, latest, t, r.vb, Handed(r.va)).entries
  {
    var r := DeletedHere(u, at);
    DeletedHereHolds(u, at);
    SecondSide(r);
    NewerEditGoes(r.tb, r.vb, r.va, u, at, edited, brain, owner, latest);
  }

  lemma SecondSide(r: Replicas)
    requires Ready(r)
    ensures Standing(r.tb, r.vb.root.id) && NoOwnTombstone(r.tb) && r.tb.entries.Keys == Index(CollectEntries(r.vb.root)).Keys
    ensures r.ta.tombstones == TombstoneMap(r.va.deletedObjects)
  {
    RepresentedStands(r.tb, r.vb);
  }

  lemma NewerEditGoes(t: Tables, local: Vault, peer: Vault, u: Uuid, at: int, edited: int, brain: Brain, owner: string, latest: int)
    requires Standing(t, local.root.id) && NoOwnTombstone(t) && u in t.entries && 0 <= at < edited
    requires TombstoneMap(peer.deletedObjects) == map[u := Some(at)] && Index(CollectEntries(peer.root)) == map[]
    requires Index(CollectEntries(local.root)) == map[u := EntrySync.Placed(Plain(u, None), 2)]
    ensures var found, pass := EditedSince(t, u, edited), StartPass(brain, owner, latest, local, Handed(peer));
            && MayFind(pass, found, local.root.id) && u in found.entries && u in pass.peerTomb
            && LiveEditWins(found.entries[u].entry.live.modified, pass.peerTomb[u])
            && u !in PeerPass.PeerPass(brain, owner, latest, found, local, Handed(peer)).entries
  {
    var pass := StartPass(brain, owner, latest, local, Handed(peer));
    FlooredMap(peer.deletedObjects);
    assert pass.peerTomb == map[u := FloorOption(Some(at))];
    assert pass.peer == map[];
    GoesByProjection(pass, t, local.root.id, u, at, edited, MergedTree(EditedSince(t, u, edited), Handed(peer)));
  }

  lemma GoesByProjection(pass: Pass, t: Tables, root: Uuid, u: Uuid, at: int, edited: int, groups: map<Uuid, GroupRow>)
    requires Standing(t, root) && NoOwnTombstone(t) && u in t.entries && 0 <= at < edited
    requires pass.peer == map[] && pass.peerTomb == map[u := FloorOption(Some(at))]
    requires pass.local == map[u := EntrySync.Placed(Plain(u, None), 2)]
    ensures var found := EditedSince(t, u, edited);
            && MayFind(pass, found, root) && LiveEditWins(found.entries[u].entry.live.modified, pass.peerTomb[u])
            && u !in EntriesAfter(pass, groups, found.entries)
  {
    var row := t.entries[u].(entry := Edited(u, edited));
    EditedMayBeFound(pass, t, root, u, row);
    assert EditedSince(t, u, edited).entries == t.entries[u := row];
    assert row.entry.live.modified == Some(edited) && FloorToSecond(at) <= at;
    assert Plain(u, None).live.modified == Some(0) && FloorToSecond(at) >= 0;
    NewerEditIsDeleted(pass, groups, t.entries[u := row], u);
  }

  // ----- a deletion recorded again

  /** The projection has `u` as deleted at `first`, and the peer an edit of it since.
      Before the pass another connection takes that edit in and deletes the entry again,
      at `again`. The pass adds nothing unknown, spares all rows and leaves the settings;
      and it brings the entry back and removes the record of its deletion. */
  lemma DeletedAgainIsUndone(u: Uuid, first: int, edited: int, again: int, owner: string, latest: int)
    requires u > 3 && 0 <= first < edited <= again && Whole(Some(edited))
    ensures var va, vb := Small([], false, [DeletedObject(u, Some(first))], []), Small([Edited(u, edited)], false, [], []);
            var pass, found := StartPass(Disputing(), owner, latest, va, Handed(vb)), Opened(va).(tombstones := map[u := Some(again)]);
            && Represents(Opened(va), va) && MayFind(pass, found, 1) && SparesRows(pass)
            && pass.peer.Keys <= pass.local.Keys + pass.localTomb.Keys && Disputing().mergeMeta(va.meta, Handed(vb).meta) == va.meta
            && u in found.tombstones && u !in found.entries && DeletionStands(pass, found, u)
            && var after := PeerPass.PeerPass(Disputing(), owner, latest, found, va, Handed(vb));
               u in after.entries && u !in after.tombstones
  {
    var va, vb := Small([], false, [DeletedObject(u, Some(first))], []), Small([Edited(u, edited)], false, [], []);
    SmallHolds([], false, [DeletedObject(u, Some(first))], [], u);
    SmallHolds([Edited(u, edited)], false, [], [], u);
    RepresentedStands(Opened(va), va);
    ComesBack(Opened(va), va, Handed(vb), u, first, edited, again, Disputing(), owner, latest);
  }

  lemma ComesBack(t: Tables, local: Vault, peer: Vault, u: Uuid, first: int, edited: int, again: int, brain: Brain, owner: string, latest: int)
    requires Standing(t, local.root.id) && t.entries == map[] && first < edited <= again
    requires Index(CollectEntries(local.root)) == map[] && TombstoneMap(local.deletedObjects) == map[u := Some(first)]
    requires Index(CollectEntries(peer.root)) == map[u := EntrySync.Placed(Edited(u, edited), 2)]
    ensures var pass, found := StartPass(brain, owner, latest, local, peer), t.(tombstones := map[u := Some(again)]);
            && MayFind(pass, found, local.root.id) && SparesRows(pass) && pass.peer.Keys <= pass.local.Keys + pass.localTomb.Keys
            && DeletionStands(pass, found, u)
            && var after := PeerPass.PeerPass(brain, owner, latest, found, local, peer);
               u in after.entries && u !in after.tombstones
  {
    var pass, found := StartPass(brain, owner, latest, local, peer), t.(tombstones := map[u := Some(again)]);
    assert Added(pass, u) && !Clashes(pass, found.entries, u);
    assert MayFind(pass, found, local.root.id);
    RowAfter(pass, MergedTree(found, peer), found.entries, u);
    GroupsAfter(found, local, peer, brain, owner, latest);
  }

  // ----- one edit made on both sides

  /** A merge library that finds everything in sync. */
  function Agreeing(): Brain {
    Disputing().(classify := (a: Entry, b: Entry) => InSync)
  }

  function Edited(u: Uuid, at: int): Entry {
    Plain(u, None).(live := Dated(at))
  }

  function EditedTwice(u: Uuid, here: int, there: int): Replicas {
    var va, vb := Small([Edited(u, here)], false, [], []), Small([Edited(u, there)], false, [], []);
    Replicas(Opened(va), va, Opened(vb), vb)
  }

  /** The same edit made on both sides in different seconds: in sync, and after the
      exchange each side still has its own stamp. */
  lemma SameEditKeepsTwoStamps(u: Uuid, here: int, there: int, latest: int)
    requires u > 3 && Whole(Some(here)) && Whole(Some(there)) && here != there
    ensures var r := EditedTwice(u, here, there);
            && Ready(r) && u in r.ta.entries && u in r.tb.entries
            && var a, b := After(r, Agreeing(), "b", latest), After(Swap(r), Agreeing(), "a", latest);
               u in a.entries && u in b.entries && a.entries[u].entry.live == Dated(here) && b.entries[u].entry.live == Dated(there)
  {
    var r := EditedTwice(u, here, there);
    SmallHolds([Edited(u, here)], false, [], [], u);
    SmallHolds([Edited(u, there)], false, [], [], u);
    OpenedRow(Edited(u, here));
    OpenedRow(Edited(u, there));
    InSyncAgrees(r, Agreeing(), Agreeing(), ("b", "a"), latest, u);
  }

  /** The row of the one entry of such a vault. */
  lemma OpenedRow(e: Entry)
    ensures Opened(Small([e], false, [], [])).entries == map[e.id := EntryRow(2, false, e)]
  {
    var v := Small([e], false, [], []);
    var two, three := v.root.groups[0], v.root.groups[1];
    assert v.root.groups == [two, three] && [two, three][1..] == [three] && [three][1..] == [];
    assert FlagAll([], 1, false) == [] && FlagAll([], 3, false) == [] && FlagAll([e], 2, false) == [EntryRow(2, false, e)];
    assert Flag(two, None, false) == [EntryRow(2, false, e)] && Flag(three, None, false) == [];
    assert FlagBelow([three], None, false) == [] && FlagBelow([two, three], None, false) == [EntryRow(2, false, e)];
    assert Flag(v.root, None, false) == [EntryRow(2, false, e)];
    InsertOne(EntryRow(2, false, e));
  }

  lemma InsertOne(row: EntryRow)
    ensures InsertEntries(map[], [row]) == map[row.entry.id := row]
  {
    assert [row][1..] == [];
    assert InsertEntries(map[], [row]) == InsertEntries(map[row.entry.id := row], []);
  }

  // ----- an adopted entry moved on both sides

  /** Both sides hold entry `u` in conflict; the second has resolved it. */
  function MovedApart(u: Uuid, here: int, there: int, resolved: int): Replicas {
    var va, vb := Small([Plain(u, Some(here))], false, [], []), Small([Plain(u, Some(there))], true, [], [Resolution(u, resolved)]);
    Replicas(Opened(va), va, Opened(vb), vb)
  }

  /** The side that adopts had moved the entry later than the side that resolved.
      One exchange swaps it: the adopting side takes it to the resolver's group, the
      resolver to the adopter's. */
  lemma AdoptionCanSplitLocations(u: Uuid, here: int, there: int, resolved: int, latest: int)
    requires u > 3 && FloorToSecond(here) > FloorToSecond(there) && resolved >= 0
    ensures var r := MovedApart(u, here, there, resolved);
            && Ready(r) && KeepsPlacement(Disputing())
            && !LocationsMeet(r, Disputing(), Disputing(), latest)
            && var a, b := After(r, Disputing(), "b", latest), After(Swap(r), Disputing(), "a", latest);
               u in a.entries && u in b.entries && a.entries[u].group == 3 && b.entries[u].group == 2
  {
    var r := MovedApart(u, here, there, resolved);
    MovedApartHolds(u, here, there, resolved, latest);
    LiveAfter(r, Disputing(), "b", latest, u);
    LiveAfter(Swap(r), Disputing(), "a", latest, u);
    LocationAfter(r, Disputing(), "b", latest, u);
    LocationAfter(Swap(r), Disputing(), "a", latest, u);
    Swapped(u, here, there);
    var a, b := After(r, Disputing(), "b", latest), After(Swap(r), Disputing(), "a", latest);
    assert RowLocation(a.entries[u]).group == 3 && RowLocation(b.entries[u]).group == 2;
    LocationsAgree(r, Disputing(), Disputing(), ("b", "a"), latest);
  }

  /** The two landings. */
  lemma Swapped(u: Uuid, here: int, there: int)
    requires FloorToSecond(here) > FloorToSecond(there)
    ensures var ours, theirs := LocationOf(Plain(u, Some(here)), 2), LocationOf(Plain(u, Some(there)), 3);
            LandsAt(ours, theirs, true).group == 3 && LandsAt(theirs, ours, false).group == 2
  {
  }

  lemma MovedApartHolds(u: Uuid, here: int, there: int, resolved: int, latest: int)
    requires u > 3 && resolved >= 0
    ensures var r := MovedApart(u, here, there, resolved);
            && Ready(r)
            && var pass, back := PassOf(r, Disputing(), "b", latest), PassOf(Swap(r), Disputing(), "a", latest);
               && pass.local == back.peer == map[u := EntrySync.Placed(Plain(u, Some(here)), 2)]
               && pass.peer == back.local == map[u := EntrySync.Placed(Plain(u, Some(there)), 3)]
               && Exchange.Adopts(pass.rules, pass.local[u].entry, pass.peer[u].entry)
               && !Exchange.Adopts(back.rules, back.local[u].entry, back.peer[u].entry)
  {
    MovedApartOpens(u, here, there, resolved);
    ResolvedThere(MovedApart(u, here, there, resolved), Plain(u, Some(here)), Plain(u, Some(there)), resolved, latest);
  }

  /** One dispute, resolved on the second side. */
  lemma ResolvedThere(r: Replicas, ea: Entry, eb: Entry, resolved: int, latest: int)
    requires ea.id == eb.id && ea.live.modified == Some(0) && eb.live.modified == Some(0) && resolved >= 0
    requires Index(CollectEntries(r.va.root)) == map[ea.id := EntrySync.Placed(ea, 2)]
    requires Index(CollectEntries(r.vb.root)) == map[ea.id := EntrySync.Placed(eb, 3)]
    requires r.va.resolutions == [] && r.vb.resolutions == [Resolution(ea.id, resolved)]
    ensures var pass, back := PassOf(r, Disputing(), "b", latest), PassOf(Swap(r), Disputing(), "a", latest);
            && pass.local == back.peer == map[ea.id := EntrySync.Placed(ea, 2)]
            && pass.peer == back.local == map[ea.id := EntrySync.Placed(eb, 3)]
            && Exchange.Adopts(pass.rules, ea, eb) && !Exchange.Adopts(back.rules, eb, ea)
  {
    OneResolution(Resolution(ea.id, resolved));
    var pass, back := PassOf(r, Disputing(), "b", latest), PassOf(Swap(r), Disputing(), "a", latest);
    ResolverIsFollowed(pass.rules, ea, eb, FloorToSecond(resolved));
    ResolverHolds(back.rules, eb, ea, FloorToSecond(resolved));
  }

  lemma MovedApartOpens(u: Uuid, here: int, there: int, resolved: int)
    requires u > 3
    ensures var r := MovedApart(u, here, there, resolved);
            && Ready(r)
            && Index(CollectEntries(r.va.root)) == map[u := EntrySync.Placed(Plain(u, Some(here)), 2)]
            && Index(CollectEntries(r.vb.root)) == map[u := EntrySync.Placed(Plain(u, Some(there)), 3)]
  {
    SmallHolds([Plain(u, Some(here))], false, [], [], u);
    SmallHolds([Plain(u, Some(there))], true, [], [Resolution(u, resolved)], u);
  }

  lemma ResolverIsFollowed(rules: Rules, local: Entry, peer: Entry, at: int)
    requires rules.brain == Disputing() && rules.localResolved == map[] && rules.peerResolved == map[peer.id := at]
    requires local.live.modified == Some(0) && at >= 0
    ensures Exchange.Adopts(rules, local, peer)
  {
  }

  lemma ResolverHolds(rules: Rules, local: Entry, peer: Entry, at: int)
    requires rules.brain == Disputing() && rules.localResolved == map[peer.id := at]
    requires peer.live.modified == Some(0) && at >= 0
    ensures !Exchange.Adopts(rules, local, peer)
  {
  }

  lemma OneResolution(r: Resolution)
    ensures ResolutionTimes([r]) == map[r.entry := FloorToSecond(r.resolvedAt)] && ResolutionTimes([]) == map[]
  {
    assert [r][..0] == [];
  }
}
