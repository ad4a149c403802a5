/** What the group half of a peer pass does, column by column. */
module GroupLaws {
  import opened Order
  import opened GroupGraph
  import opened Store
  import opened GroupCycles
  import opened GroupSync

  /** The row with everything but the place as the merge leaves it. */
  ghost predicate SameMetadata(a: GroupRow, b: GroupRow) {
    a.name == b.name && a.notes == b.notes && a.icon == b.icon && a.customIcon == b.customIcon && a.modifiedAt == b.modifiedAt
  }

  ghost predicate HasMetadata(row: GroupRow, node: GroupNode) {
    row.name == node.name && row.notes == node.notes && row.icon == node.icon && row.customIcon == node.customIcon
    && row.modifiedAt == SetAt(node)
  }

  /** A group both hold has the peer's metadata, stamp included, after the pass exactly
      if the peer set it in a later second, or in the same one with later texts; else it
      has its own. What no merge touches stays. */
  lemma LaterMetadataWins(groups: map<Uuid, GroupRow>, peerRoot: GroupNode, i: nat)
    requires DistinctIds(Flatten(peerRoot)) && i < |Flatten(peerRoot)| && Flatten(peerRoot)[i].node.id in groups
    ensures var node := Flatten(peerRoot)[i].node;
            var row := groups[node.id];
            && node.id in AfterPeerGroups(groups, peerRoot)
            && var after := AfterPeerGroups(groups, peerRoot)[node.id];
               && (SetAt(node) / 1000 > row.modifiedAt / 1000 ==> HasMetadata(after, node))
               && (SetAt(node) / 1000 < row.modifiedAt / 1000 ==> SameMetadata(after, row))
               && (SetAt(node) / 1000 == row.modifiedAt / 1000 ==> if TextsLater(node, row) then HasMetadata(after, node) else SameMetadata(after, row))
               && after.isRecycleBin == row.isRecycleBin && after.sortOrder == row.sortOrder
  {
    var f := Flatten(peerRoot)[i];
    FindAt(Flatten(peerRoot), i);
    LaterMetadata(f.node, groups[f.node.id]);
  }

  /** Before cycles are broken the group is under the peer's parent exactly if the peer
      moved it there in a later second, or in the same one with the larger id; else it
      is where it was, with its stamp. */
  lemma LaterPlaceWins(groups: map<Uuid, GroupRow>, peerRoot: GroupNode, i: nat)
    requires DistinctIds(Flatten(peerRoot)) && i < |Flatten(peerRoot)| && Flatten(peerRoot)[i].node.id in groups
    ensures var f := Flatten(peerRoot)[i];
            var row := groups[f.node.id];
            && f.node.id in MergedGroups(groups, Flatten(peerRoot))
            && var merged := MergedGroups(groups, Flatten(peerRoot))[f.node.id];
               if MovedLater(f, row) then merged.parent == f.parent && merged.locationChangedAt == FloorOption(f.node.locationChanged)
               else merged.parent == row.parent && merged.locationChangedAt == row.locationChangedAt
  {
    var f := Flatten(peerRoot)[i];
    FindAt(Flatten(peerRoot), i);
    LaterPlace(f, groups[f.node.id]);
  }

  /** Breaking cycles moves a group only to the root, and touches no other column. */
  lemma BreakingMovesToRoot(groups: map<Uuid, GroupRow>, peerRoot: GroupNode, u: Uuid)
    requires u in MergedGroups(groups, Flatten(peerRoot))
    ensures var merged := MergedGroups(groups, Flatten(peerRoot));
            u in AfterPeerGroups(groups, peerRoot)
            && AfterPeerGroups(groups, peerRoot)[u] ==
                 if SmallestOnCycle(ParentsOf(merged), u) then merged[u].(parent := Some(peerRoot.id)) else merged[u]
  {
  }

  /** A group only the peer holds comes in with its columns, as an ordinary group. */
  lemma NewGroupComesIn(groups: map<Uuid, GroupRow>, peerRoot: GroupNode, i: nat)
    requires DistinctIds(Flatten(peerRoot)) && i < |Flatten(peerRoot)| && Flatten(peerRoot)[i].node.id !in groups
    ensures var f := Flatten(peerRoot)[i];
            && f.node.id in MergedGroups(groups, Flatten(peerRoot))
            && var merged := MergedGroups(groups, Flatten(peerRoot))[f.node.id];
               && HasMetadata(merged, f.node) && merged.parent == f.parent && merged.locationChangedAt == f.node.locationChanged
               && !merged.isRecycleBin && merged.sortOrder == f.sortOrder
  {
    FindAt(Flatten(peerRoot), i);
  }

  /** A group only we hold stays as it is. */
  lemma OwnGroupStays(groups: map<Uuid, GroupRow>, peerRoot: GroupNode, u: Uuid)
    requires u in groups && u !in Ids(Flatten(peerRoot))
    ensures u in MergedGroups(groups, Flatten(peerRoot)) && MergedGroups(groups, Flatten(peerRoot))[u] == groups[u]
  {
  }

  /** After an exchange both sides have the metadata that was set in the later second. */
  lemma ExchangeTakesLater(ga: map<Uuid, GroupRow>, gb: map<Uuid, GroupRow>, ta: GroupNode, tb: GroupNode, u: Uuid)
    requires Snapshot(ga, ta) && Snapshot(gb, tb) && ta.id == tb.id && u in ga && u in gb
    requires ga[u].modifiedAt / 1000 > gb[u].modifiedAt / 1000
    ensures u in AfterPeerGroups(ga, tb) && u in AfterPeerGroups(gb, ta)
    ensures SameMetadata(AfterPeerGroups(ga, tb)[u], ga[u])
    ensures var b := AfterPeerGroups(gb, ta)[u];
            && b.name == ga[u].name && b.notes == ga[u].notes && b.icon == ga[u].icon && b.customIcon == ga[u].customIcon
            && b.modifiedAt / 1000 == ga[u].modifiedAt / 1000
  {
    SnapshotFind(ga, ta, u);
    SnapshotFind(gb, tb, u);
    var i :| 0 <= i < |Flatten(ta)| && Flatten(ta)[i] == Find(Flatten(ta), u);
    var j :| 0 <= j < |Flatten(tb)| && Flatten(tb)[j] == Find(Flatten(tb), u);
    LaterMetadataWins(gb, ta, i);
    LaterMetadataWins(ga, tb, j);
    FloorMeans(ga[u].modifiedAt);
    FloorMeans(gb[u].modifiedAt);
    FloorMeans(SetAt(Flatten(ta)[i].node));
    FloorMeans(SetAt(Flatten(tb)[j].node));
  }

  /** A move in a later second than the peer knows of survives the pass, unless a cycle
      is broken at the group. */
  lemma LaterMoveSurvives(groups: map<Uuid, GroupRow>, peerRoot: GroupNode, i: nat, now: int)
    requires DistinctIds(Flatten(peerRoot)) && i < |Flatten(peerRoot)| && Flatten(peerRoot)[i].node.id in groups
    requires groups[Flatten(peerRoot)[i].node.id].locationChangedAt == Some(now)
    requires var known := Flatten(peerRoot)[i].node.locationChanged; known.Some? ==> known.value / 1000 < now / 1000
    ensures var u := Flatten(peerRoot)[i].node.id;
            && u in MergedGroups(groups, Flatten(peerRoot)) && u in AfterPeerGroups(groups, peerRoot)
            && (SmallestOnCycle(ParentsOf(MergedGroups(groups, Flatten(peerRoot))), u) || AfterPeerGroups(groups, peerRoot)[u].parent == groups[u].parent)
            && AfterPeerGroups(groups, peerRoot)[u].locationChangedAt == Some(now)
  {
    LaterPlaceWins(groups, peerRoot, i);
    BreakingMovesToRoot(groups, peerRoot, Flatten(peerRoot)[i].node.id);
  }
}
