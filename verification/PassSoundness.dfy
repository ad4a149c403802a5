/** What every peer pass keeps, whatever the peer's vault. */
module PassSoundness {
  import opened Order
  import opened GroupGraph
  import opened Store
  import opened EntryRules
  import opened BinWalk
  import opened GroupSync
  import opened GroupTombstones
  import EntryFields
  import opened EntrySync
  import opened PeerEntries
  import opened PeerPass

  /** The tables' standing invariant. */
  ghost predicate Sound(t: Tables, root: Uuid) {
    && GroupTree(t.groups, root) && Resolves(t.groups, t.entries) && AtMostOneBin(t.groups)
    && NoOwnTombstone(t) && t.groups.Keys !! t.tombstones.Keys
  }

  /** `local` is what the tables project to now; `peer` is any vault of the same
      identity. */
  ghost predicate Foldable(t: Tables, local: Vault, peer: Vault) {
    Represents(t, local) && NoOwnTombstone(t) && ValidVault(peer) && local.root.id == peer.root.id
  }

  /** The group tree and tombstones before groups are judged. */
  ghost function MergedTree(t: Tables, peer: Vault): map<Uuid, GroupRow> {
    AfterPeerGroups(t.groups, peer.root)
  }

  ghost function JoinedTombstones(pass: Pass, t: Tables, peer: Vault): map<Uuid, Option<int>> {
    TombstonesAfter(pass, MergedTree(t, peer), t.entries, t.tombstones)
  }

  lemma GroupsAfter(t: Tables, local: Vault, peer: Vault, brain: Brain, owner: string, latest: int)
    ensures var after, merged := PeerPass.PeerPass(brain, owner, latest, t, local, peer), MergedTree(t, peer);
            var tombstones := JoinedTombstones(StartPass(brain, owner, latest, local, peer), t, peer);
            var gone := GoneGroups(merged, after.entries, tombstones);
            && after.groups.Keys == merged.Keys - gone
            && (forall u :: u in after.groups ==> Agree(after.groups[u], merged[u]))
            && after.tombstones == RemainingTombstones(merged, tombstones, gone)
  {
    var after, merged := PeerPass.PeerPass(brain, owner, latest, t, local, peer), MergedTree(t, peer);
    var gone := GoneGroups(merged, after.entries, JoinedTombstones(StartPass(brain, owner, latest, local, peer), t, peer));
    SurvivorsAgree(merged, gone, BinIn(SurvivingGroups(merged, gone), brain.mergeMeta(local.meta, peer.meta).recycleBin));
  }

  lemma SurvivorsAgree(merged: map<Uuid, GroupRow>, gone: set<Uuid>, bin: Option<Uuid>)
    ensures var groups := SurvivingGroups(merged, gone);
            && groups.Keys == Flagged(groups, bin).Keys == merged.Keys - gone
            && forall u :: u in groups ==> Agree(groups[u], merged[u]) && Agree(Flagged(groups, bin)[u], merged[u])
  {
  }

  /** The merged tree has the groups of all the peer's entries. */
  lemma GroupOfPeer(t: Tables, peer: Vault, u: Uuid)
    requires Standing(t, peer.root.id) && ValidVault(peer) && u in Index(CollectEntries(peer.root))
    ensures Index(CollectEntries(peer.root))[u].group in MergedTree(t, peer)
  {
    var placed := CollectEntries(peer.root);
    IndexMeans(placed);
    var i :| 0 <= i < |placed| && placed[i].entry.id == u;
    EntriesAreInGroups(peer.root, None, 0, i);
    AfterPeerGroupsIsTree(t.groups, peer.root);
  }

  /** One row through the whole pass. A shared one has the verdict applied; one only
      the projection had goes or stays by its projected stamp; one created since stays
      as it is; and one deleted since stays deleted. */
  lemma RowAfter(pass: Pass, groups: map<Uuid, GroupRow>, entries: map<Uuid, EntryRow>, u: Uuid)
    requires Commits(pass, entries)
    ensures var after := EntriesAfter(pass, groups, entries);
            if u in entries then
              && (u in after <==> !Dropped(pass, u))
              && (u in after ==> after[u] == if u in pass.local && u in pass.peer
                                             then SharedRow(pass.rules, groups, entries[u], pass.local[u].entry, pass.peer[u])
                                             else entries[u])
            else u in after <==> Added(pass, u)
  {
    EntriesAfterAt(pass, groups, entries, u);
    if u in pass.peer {
      assert !Clashes(pass, entries, u);
    }
  }

  /** Over a current projection nothing but a repeated key in an entry fails a pass. */
  lemma CommitsOverCurrent(pass: Pass, entries: map<Uuid, EntryRow>)
    requires entries.Keys == pass.local.Keys
    ensures Commits(pass, entries) <==>
              forall u {:trigger pass.peer[u]} :: u in pass.peer ==> InsertFits(pass, u)
  {
    forall u | u in pass.peer ensures !Clashes(pass, entries, u) <==> InsertFits(pass, u) {
    }
  }

  /** What the pass inserts for the peer's entry `u` repeats no key. */
  ghost predicate InsertFits(pass: Pass, u: Uuid)
    requires u in pass.peer
  {
    var peer := pass.peer[u].entry;
    if u in pass.local then
      Overwrites(pass.rules, pass.local[u].entry, peer) ==> EntryFields.EntryFits(Inserted(pass.rules, pass.local[u].entry, peer))
    else Added(pass, u) ==> EntryFields.EntryFits(peer)
  }

  /** Where something of the peer's settings won, the flag column follows the merged
      pointer; else it stays. */
  lemma FlagsAfter(t: Tables, local: Vault, peer: Vault, brain: Brain, owner: string, latest: int)
    ensures var after, meta := PeerPass.PeerPass(brain, owner, latest, t, local, peer), brain.mergeMeta(local.meta, peer.meta);
            && (AtMostOneBin(t.groups) ==> AtMostOneBin(after.groups))
            && forall u :: u in after.groups ==>
                 (after.groups[u].isRecycleBin <==>
                    if meta == local.meta then u in t.groups && t.groups[u].isRecycleBin else meta.recycleBin == Some(u))
  {
    var after, merged := PeerPass.PeerPass(brain, owner, latest, t, local, peer), MergedTree(t, peer);
    var gone := GoneGroups(merged, after.entries, JoinedTombstones(StartPass(brain, owner, latest, local, peer), t, peer));
    MergedBins(t.groups, peer.root);
    SurvivorsFlags(merged, gone);
    NewFlags(SurvivingGroups(merged, gone), brain.mergeMeta(local.meta, peer.meta).recycleBin);
  }

  lemma SurvivorsFlags(merged: map<Uuid, GroupRow>, gone: set<Uuid>)
    ensures AtMostOneBin(merged) ==> AtMostOneBin(SurvivingGroups(merged, gone))
  {
    if AtMostOneBin(merged) {
      var bin: Option<Uuid> :| OnlyBin(merged, bin);
      assert OnlyBin(SurvivingGroups(merged, gone), bin);
    }
  }

  lemma NewFlags(groups: map<Uuid, GroupRow>, bin: Option<Uuid>)
    ensures var after := Flagged(groups, BinIn(groups, bin));
            AtMostOneBin(after) && forall u :: u in after ==> (after[u].isRecycleBin <==> bin == Some(u))
  {
    assert OnlyBin(Flagged(groups, BinIn(groups, bin)), bin);
  }

  /** Over a current projection a group is flagged exactly when it is the bin the
      merged settings name. */
  lemma BinFollowsMeta(t: Tables, local: Vault, peer: Vault, brain: Brain, owner: string, latest: int)
    requires Represents(t, local)
    ensures var after := PeerPass.PeerPass(brain, owner, latest, t, local, peer);
            AtMostOneBin(after.groups)
            && forall u :: u in after.groups ==>
                 (after.groups[u].isRecycleBin <==> brain.mergeMeta(local.meta, peer.meta).recycleBin == Some(u))
  {
    RepresentedStands(t, local);
    FlagsAfter(t, local, peer, brain, owner, latest);
  }

  /** The pass takes in `u` although its deletion is recorded: the projection did not
      have the record. */
  ghost predicate Unaware(pass: Pass, t: Tables, u: Uuid) {
    Added(pass, u) && u in t.tombstones && u !in pass.localTomb
  }

  /** Live with its own tombstone after a pass is exactly what was taken in that way;
      over a current projection nothing is. */
  lemma LiveAndTombstoned(t: Tables, local: Vault, peer: Vault, brain: Brain, owner: string, latest: int, u: Uuid)
    requires NoOwnTombstone(t)
    ensures var pass, after := StartPass(brain, owner, latest, local, peer), PeerPass.PeerPass(brain, owner, latest, t, local, peer);
            && (u in after.entries && u in after.tombstones ==> Unaware(pass, t, u))
            && (Unaware(pass, t, u) && u !in MergedTree(t, peer) ==> u in after.entries && u in after.tombstones)
  {
    EntriesAfterAt(StartPass(brain, owner, latest, local, peer), MergedTree(t, peer), t.entries, u);
  }

  /** No pass over a current projection leaves a live entry with its own tombstone. */
  lemma LiveNotTombstoned(t: Tables, local: Vault, peer: Vault, brain: Brain, owner: string, latest: int)
    requires Foldable(t, local, peer)
    ensures NoOwnTombstone(PeerPass.PeerPass(brain, owner, latest, t, local, peer))
  {
    var after := PeerPass.PeerPass(brain, owner, latest, t, local, peer);
    forall u | u in after.entries ensures u !in after.tombstones {
      LiveAndTombstoned(t, local, peer, brain, owner, latest, u);
    }
  }

  /** The merged tree, before groups are judged, houses every entry. */
  lemma MergedResolves(t: Tables, local: Vault, peer: Vault, brain: Brain, owner: string, latest: int)
    requires Standing(t, peer.root.id) && ValidVault(peer) && local.root.id == peer.root.id
    ensures GroupTree(MergedTree(t, peer), local.root.id)
    ensures Resolves(MergedTree(t, peer), PeerPass.PeerPass(brain, owner, latest, t, local, peer).entries)
  {
    AfterPeerGroupsIsTree(t.groups, peer.root);
    EntriesResolve(StartPass(brain, owner, latest, local, peer), t.groups, t.entries, peer);
  }

  /** Nobody left a group undeleted, and no entry is live. */
  ghost predicate NothingLeft(pass: Pass, t: Tables, peer: Vault) {
    && MergedTree(t, peer).Keys <= JoinedTombstones(pass, t, peer).Keys
    && EntriesAfter(pass, MergedTree(t, peer), t.entries) == map[]
  }

  /** A pass over any vault of the same identity, from whatever projection, leaves one
      tree under the root, no dangling parent or group column, at most one bin and no
      group with its own tombstone, exactly unless every group of either side is
      deleted and no entry is live; then it leaves nothing. */
  lemma PassKeepsStanding(t: Tables, local: Vault, peer: Vault, brain: Brain, owner: string, latest: int)
    requires Standing(t, peer.root.id) && ValidVault(peer) && local.root.id == peer.root.id
    ensures var after := PeerPass.PeerPass(brain, owner, latest, t, local, peer);
            if NothingLeft(StartPass(brain, owner, latest, local, peer), t, peer)
            then after.groups == map[] && after.entries == map[]
            else Standing(after, peer.root.id) && after.groups.Keys !! after.tombstones.Keys
  {
    var after, merged := PeerPass.PeerPass(brain, owner, latest, t, local, peer), MergedTree(t, peer);
    var pass := StartPass(brain, owner, latest, local, peer);
    var tombstones := JoinedTombstones(pass, t, peer);
    MergedResolves(t, local, peer, brain, owner, latest);
    GroupsAfter(t, local, peer, brain, owner, latest);
    WhenRootGoes(merged, after.entries, tombstones, local.root.id);
    if NothingLeft(pass, t, peer) {
      assert after.groups.Keys == {};
    } else {
      assert local.root.id in after.groups;
      SettledTree(merged, after.entries, tombstones, local.root.id, after.groups);
      FlagsAfter(t, local, peer, brain, owner, latest);
    }
  }

  /** Over a current projection it keeps the standing invariant. */
  lemma PassKeepsSound(t: Tables, local: Vault, peer: Vault, brain: Brain, owner: string, latest: int)
    requires Foldable(t, local, peer)
    ensures var after := PeerPass.PeerPass(brain, owner, latest, t, local, peer);
            if NothingLeft(StartPass(brain, owner, latest, local, peer), t, peer)
            then after.groups == map[] && after.entries == map[]
            else Sound(after, local.root.id)
  {
    RepresentedStands(t, local);
    PassKeepsStanding(t, local, peer, brain, owner, latest);
    LiveNotTombstoned(t, local, peer, brain, owner, latest);
  }

  /** The root goes exactly if everything does. */
  lemma WhenRootGoes(groups: map<Uuid, GroupRow>, entries: map<Uuid, EntryRow>, tombstones: map<Uuid, Option<int>>, root: Uuid)
    requires GroupTree(groups, root) && Resolves(groups, entries)
    ensures root in GoneGroups(groups, entries, tombstones) <==> groups.Keys <= tombstones.Keys && entries == map[]
    ensures root in GoneGroups(groups, entries, tombstones) ==> GoneGroups(groups, entries, tombstones) == groups.Keys
  {
    var p := ParentsOf(groups);
    GroupsClosedParents(groups, root);
    WithinSelf(p, root);
    forall d | d in groups ensures Within(p, d, root) {
      assert d == root || ReachesRoot(p, root, d);
    }
    forall e | e in entries ensures entries[e].group in groups && entries[e].group in Holding(entries) {
    }
    assert root in GoneGroups(groups, entries, tombstones) ==> entries.Keys == {};
  }

  lemma SettledTree(merged: map<Uuid, GroupRow>, entries: map<Uuid, EntryRow>, tombstones: map<Uuid, Option<int>>,
                    root: Uuid, groups: map<Uuid, GroupRow>)
    requires GroupTree(merged, root) && Resolves(merged, entries) && root in groups
    requires groups.Keys == merged.Keys - GoneGroups(merged, entries, tombstones)
    requires forall u :: u in groups ==> Agree(groups[u], merged[u])
    ensures GroupTree(groups, root) && Resolves(groups, entries)
    ensures groups.Keys !! RemainingTombstones(merged, tombstones, GoneGroups(merged, entries, tombstones)).Keys
  {
    var gone := GoneGroups(merged, entries, tombstones);
    SurvivorsFormTree(merged, entries, tombstones, root);
    FlaggedKeeps(SurvivingGroups(merged, gone), groups, merged, entries, root);
    RemainingApart(merged, tombstones, gone);
  }

  lemma RemainingApart(groups: map<Uuid, GroupRow>, tombstones: map<Uuid, Option<int>>, gone: set<Uuid>)
    ensures (groups.Keys - gone) !! RemainingTombstones(groups, tombstones, gone).Keys
  {
  }

  lemma FlaggedKeeps(groups: map<Uuid, GroupRow>, flagged: map<Uuid, GroupRow>, merged: map<Uuid, GroupRow>,
                     entries: map<Uuid, EntryRow>, root: Uuid)
    requires GroupTree(groups, root) && Resolves(groups, entries)
    requires flagged.Keys == groups.Keys <= merged.Keys
    requires forall u :: u in flagged ==> Agree(flagged[u], merged[u])
    requires forall u :: u in groups ==> groups[u] == merged[u]
    ensures GroupTree(flagged, root) && Resolves(flagged, entries)
  {
    assert ParentsOf(flagged) == ParentsOf(groups);
  }
}
