/** Moving entries into the recycle bin and back. */
module RecycleBin {
  import opened Order
  import opened GroupGraph
  import opened Store
  import opened BinWalk
  import opened GroupTombstones
  import opened GroupOps

  const BIN_ICON := 43

  // ----- minting the bin

  /** The bin is last under the root, with its fixed name and icon; no other group is
      flagged, and nothing else about them is new. */
  ghost predicate BinMinted(before: map<Uuid, GroupRow>, after: map<Uuid, GroupRow>, id: Uuid, root: Uuid, now: int) {
    && after.Keys == before.Keys + {id}
    && (forall g {:trigger after[g]} :: g in before && g != id ==> after[g] == before[g].(isRecycleBin := false))
    && var bin := after[id];
       && bin.parent == Some(root) && bin.name == "Recycle Bin" && bin.notes == "" && bin.icon == 43 && bin.customIcon == None
       && bin.modifiedAt == now && bin.locationChangedAt == None && bin.isRecycleBin && IsNextOrder(before, root, bin.sortOrder)
  }

  method FindRoot(groups: map<Uuid, GroupRow>, ghost root: Uuid) returns (found: Uuid)
    requires GroupsClosed(groups, root)
    ensures found == root
  {
    var parentless := set u | u in groups && groups[u].parent == None;
    assert root in parentless;
    found :| found in parentless;
  }

  /** Create the bin under the root and flag it. */
  method CreateRecycleBinGroup(m: Mirror, id: Uuid, now: int, ghost root: Uuid)
    requires GroupTree(m.groups, root) && id !in m.groups
    modifies m`groups, m`settings, m`mutationSeq
    ensures BinMinted(old(m.groups), m.groups, id, root, now)
    ensures m.groups == Flagged(old(m.groups)[id := m.groups[id]], Some(id))
    ensures m.settings == old(m.settings).(recycleBinEnabled := true, recycleBinChanged := Some(now))
    ensures AtMostOneBin(m.groups) && IsBin(m.groups, id)
    ensures m.mutationSeq > old(m.mutationSeq)
  {
    var top := FindRoot(m.groups, root);
    var next := NextSortOrder(m.groups, top);
    m.groups := m.groups[id := GroupRow(Some(top), "Recycle Bin", "", BIN_ICON, None, now, None, false, next)];
    m.mutationSeq := m.mutationSeq + 1;
    WriteRecycleBinGroup(m, id);
    m.settings := m.settings.(recycleBinEnabled := true, recycleBinChanged := Some(now));
  }

  /** A new bin is one more leaf: the tree keeps, and nothing was ever inside it. */
  lemma MintedBinIsLeaf(groups: map<Uuid, GroupRow>, id: Uuid, row: GroupRow, root: Uuid)
    requires GroupTree(groups, root) && id !in groups && row.parent == Some(root)
    ensures var after := Flagged(groups[id := row], Some(id));
            && GroupTree(after, root) && groups.Keys <= after.Keys
            && forall g :: g in groups ==> !InBin(after, g)
  {
    var after := Flagged(groups[id := row], Some(id));
    NewIsOutside(groups, root, root, id);
    PlacingKeepsTree(groups, id, row, root, root);
    FlagsKeepTree(groups[id := row], Some(id));
    assert GroupsClosed(after, root);
    GroupsClosedParents(groups, root);
    var p, q := ParentsOf(groups), ParentsOf(after);
    assert q == p[id := root];
    forall g | g in groups ensures !InBin(after, g) {
      if InBin(after, g) {
        var b: Uuid :| IsBin(after, b) && Within(q, g, b);
        var n: nat :| Ancestor(q, g, n) == Some(b);
        NeverMeetsNew(p, root, id, g, n);
      }
    }
  }

  lemma {:induction false} NeverMeetsNew(p: Parents, root: Uuid, id: Uuid, g: Uuid, n: nat)
    requires Closed(p, root) && id !in p && id != root && (g in p || g == root)
    ensures Ancestor(p[id := root], g, n) != Some(id)
    decreases n
  {
    if n > 0 && g in p {
      NeverMeetsNew(p, root, id, p[g], n - 1);
    }
  }

  // ----- recycling

  datatype Recycled = NoSuchEntry | AlreadyInBin | IntoBin(bin: Uuid) | DeletedForGood | KeyTaken

  /** `after` is `row` moved to `group` at `now`: where it came from, when it moved and
      when it was touched are recorded, and the rest of the entry is as it was. */
  ghost predicate Moved(row: EntryRow, after: EntryRow, group: Uuid, recycled: bool, now: int) {
    && after.group == group && after.isRecycled == recycled
    && after.entry.previousParent == Some(row.group) && after.entry.locationChanged == Some(now) && after.entry.live.modified == Some(now)
    && after.entry == row.entry.(previousParent := after.entry.previousParent, locationChanged := after.entry.locationChanged, live := after.entry.live)
    && after.entry.live == row.entry.live.(modified := after.entry.live.modified)
  }

  /** Only the row of `u` changed, and it moved. */
  ghost predicate OneMoved(before: map<Uuid, EntryRow>, after: map<Uuid, EntryRow>, u: Uuid, group: Uuid, recycled: bool, now: int) {
    u in before && u in after && after == before[u := after[u]] && Moved(before[u], after[u], group, recycled, now)
  }

  /** A mirror the bin operations work on, small enough for the ancestor walk. */
  ghost predicate Usable(m: Mirror, root: Uuid)
    reads m
  {
    && GroupTree(m.groups, root) && AtMostOneBin(m.groups) && Resolves(m.groups, m.entries)
    && |m.groups| <= MAX_WALK
  }

  ghost predicate HasBin(groups: map<Uuid, GroupRow>) {
    exists b :: IsBin(groups, b)
  }

  /** The bin in use, minted under `newId` if the vault wants one and has none. */
  method BinFor(m: Mirror, now: int, newId: Uuid, ghost root: Uuid) returns (bin: Option<Uuid>, taken: bool)
    requires Usable(m, root)
    modifies m`groups, m`settings, m`mutationSeq
    ensures taken <==> !HasBin(old(m.groups)) && old(m.settings).recycleBinEnabled && newId in old(m.groups)
    ensures bin.Some? <==> !taken && (HasBin(old(m.groups)) || old(m.settings).recycleBinEnabled)
    ensures bin.Some? && HasBin(old(m.groups)) ==> IsBin(old(m.groups), bin.value)
    ensures bin.Some? ==> IsBin(m.groups, bin.value)
    ensures HasBin(old(m.groups)) || bin.None? ==>
              m.groups == old(m.groups) && m.settings == old(m.settings) && m.mutationSeq == old(m.mutationSeq)
    ensures !HasBin(old(m.groups)) && bin.Some? ==>
              && bin == Some(newId) && BinMinted(old(m.groups), m.groups, newId, root, now)
              && m.settings == old(m.settings).(recycleBinEnabled := true, recycleBinChanged := Some(now))
    ensures GroupTree(m.groups, root) && AtMostOneBin(m.groups) && old(m.groups).Keys <= m.groups.Keys
    ensures forall g :: g in old(m.groups) ==> (InBin(m.groups, g) <==> InBin(old(m.groups), g))
    ensures |m.groups| <= |old(m.groups)| + 1
    ensures m.mutationSeq >= old(m.mutationSeq)
  {
    taken := false;
    bin := RecycleBinUuid(m.groups);
    if bin.None? && m.settings.recycleBinEnabled {
      if newId in m.groups {
        return None, true;
      }
      ghost var before := m.groups;
      CreateRecycleBinGroup(m, newId, now, root);
      MintedBinIsLeaf(before, newId, m.groups[newId], root);
      bin := Some(newId);
    }
  }

  /** Soft deletion. An entry already inside the bin is left alone, so that where
      it came from is not lost; without a bin and none wanted it is deleted. */
  method RecycleEntry(m: Mirror, u: Uuid, now: int, newId: Uuid, ghost root: Uuid) returns (outcome: Recycled)
    requires Usable(m, root)
    modifies m`groups, m`entries, m`tombstones, m`settings, m`mutationSeq
    ensures outcome == NoSuchEntry <==> u !in old(m.entries)
    ensures outcome == AlreadyInBin <==> u in old(m.entries) && InBin(old(m.groups), old(m.entries)[u].group)
    ensures outcome.IntoBin? || outcome.DeletedForGood? || outcome.KeyTaken? <==>
              u in old(m.entries) && !InBin(old(m.groups), old(m.entries)[u].group)
    ensures outcome.KeyTaken? ==> !HasBin(old(m.groups)) && newId in old(m.groups)
    ensures outcome.DeletedForGood? ==> !HasBin(old(m.groups)) && !old(m.settings).recycleBinEnabled
    ensures outcome.IntoBin? ==> HasBin(old(m.groups)) || old(m.settings).recycleBinEnabled
    ensures outcome.NoSuchEntry? || outcome.AlreadyInBin? || outcome.KeyTaken? ==>
              m.groups == old(m.groups) && m.entries == old(m.entries) && m.tombstones == old(m.tombstones)
              && m.settings == old(m.settings) && m.mutationSeq == old(m.mutationSeq)
    ensures outcome.IntoBin? ==>
              && IsBin(m.groups, outcome.bin) && m.tombstones == old(m.tombstones)
              && OneMoved(old(m.entries), m.entries, u, outcome.bin, true, now)
    ensures outcome.IntoBin? && !HasBin(old(m.groups)) ==>
              && outcome.bin == newId && BinMinted(old(m.groups), m.groups, newId, root, now)
              && m.settings == old(m.settings).(recycleBinEnabled := true, recycleBinChanged := Some(now))
    ensures HasBin(old(m.groups)) ==> m.settings == old(m.settings)
    ensures outcome.DeletedForGood? ==>
              && m.groups == old(m.groups) && m.settings == old(m.settings) && m.entries == old(m.entries) - {u}
              && m.tombstones == old(m.tombstones)[u := Some(now)]
    ensures GroupTree(m.groups, root) && AtMostOneBin(m.groups) && Resolves(m.groups, m.entries)
    ensures old(m.groups).Keys <= m.groups.Keys && |m.groups| <= |old(m.groups)| + 1
    ensures HasBin(old(m.groups)) ==> m.groups == old(m.groups)
    ensures forall g :: g in old(m.groups) ==> (InBin(m.groups, g) <==> InBin(old(m.groups), g))
  {
    if u !in m.entries {
      return NoSuchEntry;
    }
    var inside := GroupInBinSubtree(m.groups, m.entries[u].group, root);
    if inside {
      return AlreadyInBin;
    }
    var bin, taken := BinFor(m, now, newId, root);
    if taken {
      return KeyTaken;
    }
    if bin.Some? {
      var row := m.entries[u];
      m.entries := m.entries[u := EntryRow(bin.value, true, row.entry.(previousParent := Some(row.group), locationChanged := Some(now),
                                                                       live := row.entry.live.(modified := Some(now))))];
      m.mutationSeq := m.mutationSeq + 1;
      return IntoBin(bin.value);
    }
    m.entries := m.entries - {u};
    m.tombstones := m.tombstones[u := Some(now)];
    m.mutationSeq := m.mutationSeq + 2;
    outcome := DeletedForGood;
  }

  // ----- restoring

  /** Where a restored entry goes: back where it came from if that group still
      exists outside the bin, else to the root. */
  ghost function RestoredTo(groups: map<Uuid, GroupRow>, previous: Option<Uuid>, root: Uuid): Uuid {
    if previous.Some? && previous.value in groups && !InBin(groups, previous.value) then previous.value else root
  }

  method RestoreEntry(m: Mirror, u: Uuid, now: int, ghost root: Uuid) returns (found: bool)
    requires Usable(m, root)
    modifies m`entries, m`mutationSeq
    ensures found <==> u in old(m.entries)
    ensures !found ==> m.entries == old(m.entries)
    ensures found ==>
      var row := old(m.entries)[u];
      if InBin(m.groups, row.group) then OneMoved(old(m.entries), m.entries, u, RestoredTo(m.groups, row.entry.previousParent, root), false, now)
      else m.entries == old(m.entries)[u := row.(isRecycled := false)]
    ensures found && !InBin(m.groups, old(m.entries)[u].group) && !old(m.entries)[u].isRecycled ==> m.mutationSeq == old(m.mutationSeq)
    ensures Resolves(m.groups, m.entries)
  {
    if u !in m.entries {
      return false;
    }
    var row := m.entries[u];
    var inside := GroupInBinSubtree(m.groups, row.group, root);
    if !inside {
      if row.isRecycled {
        m.entries := m.entries[u := row.(isRecycled := false)];
        m.mutationSeq := m.mutationSeq + 1;
      }
      assert !row.isRecycled ==> row.(isRecycled := false) == row;
      return true;
    }
    var previous := row.entry.previousParent;
    var destination := FindRoot(m.groups, root);
    if previous.Some? && previous.value in m.groups {
      var previousInside := GroupInBinSubtree(m.groups, previous.value, root);
      if !previousInside {
        destination := previous.value;
      }
    }
    m.entries := m.entries[u := EntryRow(destination, false, row.entry.(previousParent := Some(row.group), locationChanged := Some(now),
                                                                        live := row.entry.live.(modified := Some(now))))];
    m.mutationSeq := m.mutationSeq + 1;
    found := true;
  }

  /** A live entry comes back to its group after any number of recyclings, unless
      the vault has no bin and wants none: then the first one deletes it. */
  method RecycleThenRestore(m: Mirror, u: Uuid, times: nat, now: int, newId: Uuid, ghost root: Uuid) returns (restored: bool)
    requires Usable(m, root) && |m.groups| < MAX_WALK
    requires u in m.entries && !InBin(m.groups, m.entries[u].group)
    requires newId !in m.groups
    modifies m`groups, m`entries, m`tombstones, m`settings, m`mutationSeq
    ensures restored <==> times == 0 || HasBin(old(m.groups)) || old(m.settings).recycleBinEnabled
    ensures restored ==> u in m.entries && m.entries[u].group == old(m.entries)[u].group && !m.entries[u].isRecycled
    ensures !restored ==> u !in m.entries && u in m.tombstones
    ensures forall e :: e in old(m.entries) && e != u ==> e in m.entries && m.entries[e] == old(m.entries)[e]
  {
    if times > 0 {
      var first := RecycleEntry(m, u, now, newId, root);
      if first.IntoBin? {
        BinIsInside(m.groups, first.bin);
      }
      RecycleAgain(m, u, times - 1, now, newId, root);
    }
    restored := RestoreEntry(m, u, now, root);
  }

  /** Recycling what is in the bin or gone changes nothing, however often. */
  method RecycleAgain(m: Mirror, u: Uuid, times: nat, now: int, newId: Uuid, ghost root: Uuid)
    requires Usable(m, root)
    requires u in m.entries ==> InBin(m.groups, m.entries[u].group)
    modifies m`groups, m`entries, m`tombstones, m`settings, m`mutationSeq
    ensures m.groups == old(m.groups) && m.entries == old(m.entries) && m.tombstones == old(m.tombstones)
    ensures m.settings == old(m.settings) && m.mutationSeq == old(m.mutationSeq)
  {
    for k := 0 to times
      invariant m.groups == old(m.groups) && m.entries == old(m.entries) && m.tombstones == old(m.tombstones)
      invariant m.settings == old(m.settings) && m.mutationSeq == old(m.mutationSeq)
    {
      var _ := RecycleEntry(m, u, now, newId, root);
    }
  }

  lemma BinIsInside(groups: map<Uuid, GroupRow>, bin: Uuid)
    requires IsBin(groups, bin)
    ensures InBin(groups, bin) && HasBin(groups)
  {
    WithinSelf(ParentsOf(groups), bin);
  }
}
