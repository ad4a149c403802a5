/** A whole peer pass. */
module PeerPass {
  import opened Order
  import opened GroupGraph
  import opened Store
  import opened EntryRules
  import opened BinWalk
  import opened GroupSync
  import opened GroupCycles
  import opened GroupTombstones
  import opened EntrySync
  import opened PeerEntries

  datatype Tables = Tables(groups: map<Uuid, GroupRow>, entries: map<Uuid, EntryRow>,
                           tombstones: map<Uuid, Option<int>>, conflicts: map<Owned, Entry>,
                           icons: map<Uuid, seq<int>>, settings: Settings)

  function Contents(m: Mirror): Tables
    reads m
  {
    Tables(m.groups, m.entries, m.tombstones, m.conflicts, m.icons, m.settings)
  }

  // ----- what a pass starts from

  ghost predicate ValidVault(v: Vault) {
    DistinctIds(Flatten(v.root)) && DistinctEntries(CollectEntries(v.root))
  }

  /** `v` is the vault these tables project to, location stamps to the second. */
  ghost predicate Represents(t: Tables, v: Vault) {
    && ValidVault(v) && Snapshot(t.groups, v.root)
    && t.entries.Keys == Index(CollectEntries(v.root)).Keys
    && (forall u :: u in t.entries ==> Stands(t.entries[u], Index(CollectEntries(v.root))[u]))
    && t.tombstones == TombstoneMap(v.deletedObjects)
    && t.icons == v.icons && t.settings == v.meta.settings
    && (v.meta.recycleBin.Some? ==> v.meta.recycleBin.value in t.groups)
    && (forall u :: u in t.groups ==> (t.groups[u].isRecycleBin <==> v.meta.recycleBin == Some(u)))
  }

  ghost predicate Stands(row: EntryRow, placed: Placed) {
    RowLocation(row) == LocationOf(placed.entry, placed.group) && row.group == placed.group && Resembles(row.entry, placed.entry)
  }

  /** One version, stamped in one second. */
  ghost predicate SameToSecond(a: Version, b: Version) {
    a == b.(modified := a.modified) && FloorOption(a.modified) == FloorOption(b.modified)
  }

  /** The entries are the same, times to the second. */
  ghost predicate Resembles(row: Entry, shown: Entry) {
    && row.id == shown.id && SameToSecond(row.live, shown.live)
    && |row.history| == |shown.history| && (forall i :: 0 <= i < |row.history| ==> SameToSecond(row.history[i], shown.history[i]))
    && row.historyTombstones == shown.historyTombstones && row.dataKeys == shown.dataKeys
    && FloorOption(row.locationChanged) == FloorOption(shown.locationChanged) && row.previousParent == shown.previousParent
  }

  /** Edits are projected to the second; deletion times and those of settings are not. */
  ghost predicate WholeEdits(v: Vault) {
    forall i :: 0 <= i < |CollectEntries(v.root)| ==> Whole(CollectEntries(v.root)[i].entry.live.modified)
  }

  /** The vault another device gets to see: what a file holds of `v`. */
  function Handed(v: Vault): Vault {
    v.(deletedObjects := FloorDeletions(v.deletedObjects), meta := v.meta.(settings := FloorSettings(v.meta.settings)))
  }

  /** What a mirror's group and entry tables must be for a pass over a vault with that
      root. */
  ghost predicate Standing(t: Tables, root: Uuid) {
    GroupTree(t.groups, root) && AtMostOneBin(t.groups) && Resolves(t.groups, t.entries)
  }

  /** No live entry carries its own tombstone. */
  ghost predicate NoOwnTombstone(t: Tables) {
    t.entries.Keys !! t.tombstones.Keys
  }

  // ----- what a pass leaves

  function BinIn(groups: map<Uuid, GroupRow>, bin: Option<Uuid>): Option<Uuid> {
    if bin.Some? && bin.value in groups then bin else None
  }

  /** `local` is the mirror's vault as it was projected some time before; `t` are the
      tables now. */
  ghost function PeerPass(brain: Brain, owner: string, latest: int, t: Tables, local: Vault, peer: Vault): Tables {
    var pass := StartPass(brain, owner, latest, local, peer);
    var merged := AfterPeerGroups(t.groups, peer.root);
    var entries := EntriesAfter(pass, merged, t.entries);
    var tombstones := TombstonesAfter(pass, merged, t.entries, t.tombstones);
    var gone := GoneGroups(merged, entries, tombstones);
    var groups := SurvivingGroups(merged, gone);
    var meta := brain.mergeMeta(local.meta, peer.meta);
    Tables(if meta == local.meta then groups else Flagged(groups, BinIn(groups, meta.recycleBin)),
           entries,
           RemainingTombstones(merged, tombstones, gone),
           ConflictsAfter(pass, t.conflicts),
           peer.icons + t.icons,
           if meta == local.meta then t.settings else meta.settings)
  }

  // ----- the pass

  /** Icons are content-addressed: only ids not yet in the pool are added. */
  method UnionPeerCustomIcons(m: Mirror, icons: map<Uuid, seq<int>>)
    modifies m`icons, m`mutationSeq
    ensures m.icons == icons + old(m.icons)
    ensures m.mutationSeq >= old(m.mutationSeq)
    ensures m.mutationSeq == old(m.mutationSeq) <==> icons.Keys <= old(m.icons).Keys
  {
    var rest := icons.Keys;
    assert icons - rest == map[];
    while rest != {}
      invariant rest <= icons.Keys
      invariant m.icons == (icons - rest) + old(m.icons)
      invariant m.mutationSeq >= old(m.mutationSeq)
      invariant m.mutationSeq == old(m.mutationSeq) <==> icons.Keys - rest <= old(m.icons).Keys
    {
      var u :| u in rest;
      if u !in m.icons {
        m.icons := m.icons[u := icons[u]];
        m.mutationSeq := m.mutationSeq + 1;
      }
      rest := rest - {u};
    }
    assert icons - {} == icons;
  }

  /** Settings: nothing is written unless something of the peer's won over the
      projected ones; then all are. */
  method ReconcilePeerMeta(m: Mirror, local: Meta, merged: Meta)
    modifies m`groups, m`settings, m`mutationSeq
    ensures m.settings == if merged == local then old(m.settings) else merged.settings
    ensures m.groups == if merged == local then old(m.groups)
                        else Flagged(old(m.groups), BinIn(old(m.groups), merged.recycleBin))
    ensures m.mutationSeq >= old(m.mutationSeq)
    ensures m.mutationSeq == old(m.mutationSeq) <==> merged == local
  {
    if merged == local {
      return;
    }
    m.settings := merged.settings;
    m.mutationSeq := m.mutationSeq + 1;
    if merged.recycleBin.Some? && merged.recycleBin.value in m.groups {
      WriteRecycleBinGroup(m, merged.recycleBin.value);
    } else {
      ClearRecycleBinGroup(m);
    }
  }

  /** Merging the trees moves no bin flag. */
  lemma MergedBins(groups: map<Uuid, GroupRow>, peer: GroupNode)
    ensures AtMostOneBin(groups) ==> AtMostOneBin(AfterPeerGroups(groups, peer))
    ensures forall u :: u in AfterPeerGroups(groups, peer) ==>
              (AfterPeerGroups(groups, peer)[u].isRecycleBin <==> u in groups && groups[u].isRecycleBin)
  {
    var flat := Flatten(peer);
    var merged, after := MergedGroups(groups, flat), AfterPeerGroups(groups, peer);
    forall u | u in after
      ensures after[u].isRecycleBin <==> u in groups && groups[u].isRecycleBin
    {
      assert after[u].isRecycleBin == merged[u].isRecycleBin;
      if u in groups && u in Ids(flat) {
        MergedKeepsBin(groups[u], Find(flat, u));
      }
    }
    if bin: Option<Uuid> :| OnlyBin(groups, bin) {
      assert OnlyBin(after, bin);
    }
  }

  lemma MergedKeepsBin(row: GroupRow, f: FlatGroup)
    ensures Merged(row, f).isRecycleBin == row.isRecycleBin
  {
  }

  /** Every entry row names a group that exists. */
  lemma EntriesResolve(pass: Pass, groups: map<Uuid, GroupRow>, entries: map<Uuid, EntryRow>, peer: Vault)
    requires pass.root == peer.root.id && ValidVault(peer)
    requires GroupsClosed(groups, pass.root) && Resolves(groups, entries)
    ensures Resolves(AfterPeerGroups(groups, peer.root), EntriesAfter(pass, AfterPeerGroups(groups, peer.root), entries))
  {
    var merged := AfterPeerGroups(groups, peer.root);
    var after := EntriesAfter(pass, merged, entries);
    AfterPeerGroupsIsTree(groups, peer.root);
    forall e | e in after ensures after[e].group in merged {
      if Sets(pass, entries, e) && e in pass.local {
        SharedRowGroup(pass.rules, merged, entries[e], pass.local[e].entry, pass.peer[e]);
        assert after[e] == WalkedRow(pass, merged, entries, e);
      }
    }
  }

  /** Groups, entries and tombstones, as far as the tombstones of groups. */
  method MergeObjects(m: Mirror, pass: Pass, peer: Vault) returns (ok: bool)
    requires ValidVault(peer) && pass.peer == Index(CollectEntries(peer.root)) && pass.root == peer.root.id
    requires GroupsClosed(m.groups, pass.root) && Walkable(AfterPeerGroups(m.groups, peer.root), pass.root)
    requires Resolves(m.groups, m.entries)
    modifies m`groups, m`entries, m`tombstones, m`conflicts, m`mutationSeq
    ensures ok <==> Commits(pass, old(m.entries))
    ensures GroupTree(m.groups, pass.root) && m.groups == AfterPeerGroups(old(m.groups), peer.root)
    ensures ok ==> Resolves(m.groups, m.entries)
    ensures ok ==> m.entries == EntriesAfter(pass, m.groups, old(m.entries))
    ensures ok ==> m.tombstones == TombstonesAfter(pass, m.groups, old(m.entries), old(m.tombstones))
    ensures ok ==> m.conflicts == ConflictsAfter(pass, old(m.conflicts))
    ensures ok ==> m.mutationSeq >= old(m.mutationSeq)
    ensures ok ==> (m.mutationSeq == old(m.mutationSeq) <==>
                      QuietGroups(old(m.groups), peer) && QuietEntries(pass, m.groups, old(m.entries), old(m.tombstones)))
  {
    EntriesResolve(pass, m.groups, m.entries, peer);
    ReconcilePeerGroups(m, peer.root);
    ok := ReconcilePeerEntries(m, pass, CollectEntries(peer.root));
  }

  ghost predicate QuietGroups(groups: map<Uuid, GroupRow>, peer: Vault) {
    Settled(groups, Flatten(peer.root), |Flatten(peer.root)|) && Acyclic(ParentsOf(groups))
  }

  lemma QuietGroupsStay(groups: map<Uuid, GroupRow>, peer: Vault)
    requires QuietGroups(groups, peer) && ValidVault(peer)
    ensures AfterPeerGroups(groups, peer.root) == groups
  {
    SettledIsMerged(groups, Flatten(peer.root));
    BrokenOfAcyclic(ParentsOf(groups), peer.root.id);
    OwnParents(groups);
  }

  lemma OwnParents(groups: map<Uuid, GroupRow>)
    ensures WithParents(groups, ParentsOf(groups)) == groups
  {
  }

  /** Everything but the settings. */
  method IngestPeerObjects(m: Mirror, pass: Pass, peer: Vault) returns (ok: bool)
    requires ValidVault(peer) && pass.peer == Index(CollectEntries(peer.root)) && pass.root == peer.root.id
    requires GroupsClosed(m.groups, pass.root) && Walkable(AfterPeerGroups(m.groups, peer.root), pass.root)
    requires Resolves(m.groups, m.entries)
    modifies m`groups, m`entries, m`tombstones, m`conflicts, m`icons, m`mutationSeq
    ensures ok <==> Commits(pass, old(m.entries))
    ensures ok ==> m.entries == EntriesAfter(pass, AfterPeerGroups(old(m.groups), peer.root), old(m.entries))
    ensures ok ==>
            var merged := AfterPeerGroups(old(m.groups), peer.root);
            var tombstones := TombstonesAfter(pass, merged, old(m.entries), old(m.tombstones));
            && m.groups == SurvivingGroups(merged, GoneGroups(merged, m.entries, tombstones))
            && m.tombstones == RemainingTombstones(merged, tombstones, GoneGroups(merged, m.entries, tombstones))
    ensures ok ==> m.conflicts == ConflictsAfter(pass, old(m.conflicts))
    ensures ok ==> m.icons == peer.icons + old(m.icons)
    ensures ok ==> m.mutationSeq >= old(m.mutationSeq)
    ensures ok ==> (m.mutationSeq == old(m.mutationSeq) <==> QuietObjects(pass, old(Contents(m)), peer))
  {
    ok := MergeObjects(m, pass, peer);
    if ok {
      SettleObjects(m, peer);
    }
  }

  /** Icons, then the tombstones of groups. */
  method SettleObjects(m: Mirror, peer: Vault)
    requires GroupTree(m.groups, peer.root.id) && Resolves(m.groups, m.entries) && |m.groups| <= MAX_WALK
    modifies m`groups, m`tombstones, m`icons, m`mutationSeq
    ensures m.groups == SurvivingGroups(old(m.groups), GoneGroups(old(m.groups), m.entries, old(m.tombstones)))
    ensures m.tombstones == RemainingTombstones(old(m.groups), old(m.tombstones),
                                                GoneGroups(old(m.groups), m.entries, old(m.tombstones)))
    ensures m.icons == peer.icons + old(m.icons)
    ensures m.mutationSeq >= old(m.mutationSeq)
    ensures m.mutationSeq == old(m.mutationSeq) <==>
              peer.icons.Keys <= old(m.icons).Keys && old(m.groups).Keys !! old(m.tombstones).Keys
  {
    UnionPeerCustomIcons(m, peer.icons);
    MaterializeGroupTombstones(m, peer.root.id);
  }

  /** No step before the settings writes a projected row. */
  ghost predicate QuietObjects(pass: Pass, t: Tables, peer: Vault) {
    var merged := AfterPeerGroups(t.groups, peer.root);
    && QuietGroups(t.groups, peer)
    && QuietEntries(pass, merged, t.entries, t.tombstones)
    && peer.icons.Keys <= t.icons.Keys
    && merged.Keys !! TombstonesAfter(pass, merged, t.entries, t.tombstones).Keys
  }

  /** Roll back. */
  method Restore(m: Mirror, groups: map<Uuid, GroupRow>, entries: map<Uuid, EntryRow>, tombstones: map<Uuid, Option<int>>,
                 conflicts: map<Owned, Entry>, icons: map<Uuid, seq<int>>, mutationSeq: nat)
    modifies m
    ensures Contents(m) == Tables(groups, entries, tombstones, conflicts, icons, old(m.settings)) && m.mutationSeq == mutationSeq
  {
    m.groups, m.entries, m.tombstones, m.conflicts, m.icons := groups, entries, tombstones, conflicts, icons;
    m.mutationSeq := mutationSeq;
  }

  /** One pass. `local` was projected before the transaction began; nothing says that
      the mirror has not been written since. A failure on one entry rolls everything
      back. */
  method IngestPeer(m: Mirror, brain: Brain, owner: string, latest: int, local: Vault, peer: Vault) returns (ok: bool)
    requires Standing(Contents(m), peer.root.id) && ValidVault(peer) && local.root.id == peer.root.id
    requires |AfterPeerGroups(m.groups, peer.root)| <= MAX_WALK
    modifies m
    ensures ok <==> Commits(StartPass(brain, owner, latest, local, peer), old(m.entries))
    ensures Contents(m) == if ok then PeerPass(brain, owner, latest, old(Contents(m)), local, peer) else old(Contents(m))
    ensures m.mutationSeq >= old(m.mutationSeq)
    ensures m.mutationSeq == old(m.mutationSeq) <==>
              !ok || (QuietObjects(StartPass(brain, owner, latest, local, peer), old(Contents(m)), peer)
                      && brain.mergeMeta(local.meta, peer.meta) == local.meta)
  {
    ghost var start := Contents(m);
    var groups, entries, tombstones, conflicts, icons, mutationSeq := m.groups, m.entries, m.tombstones, m.conflicts, m.icons, m.mutationSeq;
    var pass := StartPass(brain, owner, latest, local, peer);
    ReadyToIngest(start, peer);
    ok := IngestPeerObjects(m, pass, peer);
    if ok {
      ReconcilePeerMeta(m, local.meta, brain.mergeMeta(local.meta, peer.meta));
    } else {
      Restore(m, groups, entries, tombstones, conflicts, icons, mutationSeq);
    }
  }

  lemma ReadyToIngest(t: Tables, peer: Vault)
    requires Standing(t, peer.root.id) && ValidVault(peer) && |AfterPeerGroups(t.groups, peer.root)| <= MAX_WALK
    ensures Walkable(AfterPeerGroups(t.groups, peer.root), peer.root.id)
  {
    MergedBins(t.groups, peer.root);
    AfterPeerGroupsIsTree(t.groups, peer.root);
  }

  /** Tables that a vault represents are such. */
  lemma RepresentedStands(t: Tables, local: Vault)
    requires Represents(t, local)
    ensures Standing(t, local.root.id)
  {
    SnapshotIsTree(t.groups, local.root);
    assert OnlyBin(t.groups, local.meta.recycleBin);
    forall e | e in t.entries ensures t.entries[e].group in t.groups {
      EntryInGroup(t, local, e);
    }
  }

  lemma EntryInGroup(t: Tables, local: Vault, e: Uuid)
    requires Represents(t, local) && e in t.entries
    ensures t.entries[e].group in t.groups
  {
    var placed := CollectEntries(local.root);
    IndexMeans(placed);
    var i :| 0 <= i < |placed| && placed[i].entry.id == e;
    EntriesAreInGroups(local.root, None, 0, i);
  }
}
