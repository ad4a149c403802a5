/** Replacing the whole mirror with a vault. */
module FullIngest {
  import opened Order
  import opened GroupGraph
  import opened Store
  import opened EntryRules
  import opened BinWalk
  import opened GroupSync
  import opened EntrySync
  import opened PeerPass
  import EntryFields

  // ----- groups

  function GroupRowOf(f: FlatGroup, bin: Option<Uuid>): GroupRow {
    GroupRow(f.parent, f.node.name, f.node.notes, f.node.icon, f.node.customIcon, DtToMs(f.node.modified),
             f.node.locationChanged, bin == Some(f.node.id), f.sortOrder)
  }

  function InsertGroups(groups: map<Uuid, GroupRow>, flat: seq<FlatGroup>, bin: Option<Uuid>): map<Uuid, GroupRow>
    decreases flat
  {
    if flat == [] then groups
    else InsertGroups(groups[flat[0].node.id := GroupRowOf(flat[0], bin)], flat[1..], bin)
  }

  lemma {:induction false} InsertGroupsJoin(groups: map<Uuid, GroupRow>, a: seq<FlatGroup>, b: seq<FlatGroup>, bin: Option<Uuid>)
    ensures InsertGroups(groups, a + b, bin) == InsertGroups(InsertGroups(groups, a, bin), b, bin)
    decreases a
  {
    if a == [] {
      assert a + b == b;
    } else {
      assert (a + b)[1..] == a[1..] + b;
      InsertGroupsJoin(groups[a[0].node.id := GroupRowOf(a[0], bin)], a[1..], b, bin);
    }
  }

  /** With distinct ids each group has its own row. */
  lemma {:induction false} InsertedGroups(groups: map<Uuid, GroupRow>, flat: seq<FlatGroup>, bin: Option<Uuid>)
    requires DistinctIds(flat)
    ensures InsertGroups(groups, flat, bin).Keys == groups.Keys + Ids(flat)
    ensures forall i :: 0 <= i < |flat| ==> InsertGroups(groups, flat, bin)[flat[i].node.id] == GroupRowOf(flat[i], bin)
    ensures forall u :: u in groups && u !in Ids(flat) ==> InsertGroups(groups, flat, bin)[u] == groups[u]
    decreases flat
  {
    if flat != [] {
      var next := groups[flat[0].node.id := GroupRowOf(flat[0], bin)];
      FirstIdIsNew(flat);
      InsertedGroups(next, flat[1..], bin);
      assert InsertGroups(groups, flat, bin) == InsertGroups(next, flat[1..], bin);
      forall i | 0 <= i < |flat| ensures InsertGroups(groups, flat, bin)[flat[i].node.id] == GroupRowOf(flat[i], bin) {
        if i > 0 {
          assert flat[i] == flat[1..][i - 1];
        }
      }
    }
  }

  lemma FirstIdIsNew(flat: seq<FlatGroup>)
    requires flat != [] && DistinctIds(flat)
    ensures DistinctIds(flat[1..]) && Ids(flat) == {flat[0].node.id} + Ids(flat[1..]) && flat[0].node.id !in Ids(flat[1..])
  {
    assert flat == [flat[0]] + flat[1..];
    forall f | f in flat[1..] ensures f.node.id != flat[0].node.id {
      var i :| 0 <= i < |flat[1..]| && flat[1..][i] == f;
      assert flat[i + 1] == f;
    }
  }

  method WalkGroups(m: Mirror, group: GroupNode, parent: Option<Uuid>, sortOrder: int, bin: Option<Uuid>)
    modifies m`groups, m`mutationSeq
    ensures m.groups == InsertGroups(old(m.groups), Collect(group, parent, sortOrder), bin)
    ensures m.mutationSeq > old(m.mutationSeq)
    decreases group
  {
    ghost var first := FlatGroup(group, parent, sortOrder);
    m.groups := m.groups[group.id := GroupRow(parent, group.name, group.notes, group.icon, group.customIcon, DtToMs(group.modified),
                                              group.locationChanged, bin == Some(group.id), sortOrder)];
    m.mutationSeq := m.mutationSeq + 1;
    ghost var target := InsertGroups(m.groups, CollectChildren(group.groups, group.id, 0), bin);
    assert ([first] + CollectChildren(group.groups, group.id, 0))[1..] == CollectChildren(group.groups, group.id, 0);
    for i := 0 to |group.groups|
      invariant InsertGroups(m.groups, CollectChildren(group.groups[i..], group.id, i), bin) == target
      invariant m.mutationSeq > old(m.mutationSeq)
    {
      InsertGroupsJoin(m.groups, Collect(group.groups[i], Some(group.id), i), CollectChildren(group.groups[i + 1..], group.id, i + 1), bin);
      assert group.groups[i..][1..] == group.groups[i + 1..];
      WalkGroups(m, group.groups[i], Some(group.id), i, bin);
    }
  }

  // ----- entries

  /** Every entry below `group` with the flag the walk hands down. */
  function Flag(group: GroupNode, bin: Option<Uuid>, under: bool): seq<EntryRow>
    decreases group, 1
  {
    var inBin := under || bin == Some(group.id);
    FlagAll(group.entries, group.id, inBin) + FlagBelow(group.groups, bin, inBin)
  }

  function FlagAll(entries: seq<Entry>, group: Uuid, inBin: bool): (rows: seq<EntryRow>)
    ensures |rows| == |entries| && forall i :: 0 <= i < |rows| ==> rows[i] == EntryRow(group, inBin, entries[i])
  {
    seq(|entries|, i requires 0 <= i < |entries| => EntryRow(group, inBin, entries[i]))
  }

  function FlagBelow(groups: seq<GroupNode>, bin: Option<Uuid>, under: bool): seq<EntryRow>
    decreases groups, 0
  {
    if groups == [] then [] else Flag(groups[0], bin, under) + FlagBelow(groups[1..], bin, under)
  }

  function InsertEntries(entries: map<Uuid, EntryRow>, rows: seq<EntryRow>): map<Uuid, EntryRow>
    decreases rows
  {
    if rows == [] then entries else InsertEntries(entries[rows[0].entry.id := rows[0]], rows[1..])
  }

  lemma {:induction false} InsertEntriesJoin(entries: map<Uuid, EntryRow>, a: seq<EntryRow>, b: seq<EntryRow>)
    ensures InsertEntries(entries, a + b) == InsertEntries(InsertEntries(entries, a), b)
    decreases a
  {
    if a == [] {
      assert a + b == b;
    } else {
      assert (a + b)[1..] == a[1..] + b;
      InsertEntriesJoin(entries[a[0].entry.id := a[0]], a[1..], b);
    }
  }

  ghost predicate DistinctRows(rows: seq<EntryRow>) {
    forall i, j :: 0 <= i < j < |rows| ==> rows[i].entry.id != rows[j].entry.id
  }

  lemma {:induction false} InsertedEntries(entries: map<Uuid, EntryRow>, rows: seq<EntryRow>)
    requires DistinctRows(rows) && forall i :: 0 <= i < |rows| ==> rows[i].entry.id !in entries
    ensures forall i :: 0 <= i < |rows| ==> rows[i].entry.id in InsertEntries(entries, rows) && InsertEntries(entries, rows)[rows[i].entry.id] == rows[i]
    ensures forall u :: u in entries ==> u in InsertEntries(entries, rows) && InsertEntries(entries, rows)[u] == entries[u]
    ensures forall u :: u in InsertEntries(entries, rows) ==> u in entries || exists i :: 0 <= i < |rows| && rows[i].entry.id == u
    decreases rows
  {
    if rows != [] {
      var next := entries[rows[0].entry.id := rows[0]];
      forall i | 0 <= i < |rows[1..]| ensures rows[1..][i] == rows[i + 1] {
      }
      InsertedEntries(next, rows[1..]);
      forall i | 0 <= i < |rows|
        ensures rows[i].entry.id in InsertEntries(entries, rows) && InsertEntries(entries, rows)[rows[i].entry.id] == rows[i]
      {
        if i > 0 {
          assert rows[i] == rows[1..][i - 1];
        }
      }
      assert InsertEntries(entries, rows) == InsertEntries(next, rows[1..]);
      forall u | u in InsertEntries(entries, rows) && u !in entries ensures exists i :: 0 <= i < |rows| && rows[i].entry.id == u {
        if u != rows[0].entry.id {
          var i :| 0 <= i < |rows[1..]| && rows[1..][i].entry.id == u;
          assert rows[i + 1].entry.id == u;
        }
      }
    }
  }

  method WalkEntries(m: Mirror, group: GroupNode, bin: Option<Uuid>, under: bool)
    modifies m`entries, m`mutationSeq
    ensures m.entries == InsertEntries(old(m.entries), Flag(group, bin, under))
    ensures m.mutationSeq >= old(m.mutationSeq)
    decreases group
  {
    var inBin := under || bin == Some(group.id);
    ghost var rows := FlagAll(group.entries, group.id, inBin);
    ghost var target := InsertEntries(m.entries, Flag(group, bin, under));
    InsertEntriesJoin(m.entries, rows, FlagBelow(group.groups, bin, inBin));
    ghost var all := InsertEntries(m.entries, rows);
    for i := 0 to |group.entries|
      invariant InsertEntries(m.entries, rows[i..]) == all
      invariant m.mutationSeq >= old(m.mutationSeq)
    {
      assert rows[i..][1..] == rows[i + 1..];
      m.entries := m.entries[group.entries[i].id := EntryRow(group.id, inBin, group.entries[i])];
      m.mutationSeq := m.mutationSeq + 1;
    }
    for i := 0 to |group.groups|
      invariant InsertEntries(m.entries, FlagBelow(group.groups[i..], bin, inBin)) == target
      invariant m.mutationSeq >= old(m.mutationSeq)
    {
      assert group.groups[i..][1..] == group.groups[i + 1..];
      InsertEntriesJoin(m.entries, Flag(group.groups[i], bin, inBin), FlagBelow(group.groups[i + 1..], bin, inBin));
      WalkEntries(m, group.groups[i], bin, inBin);
    }
  }

  // ----- the flag is the ancestor walk

  ghost predicate Stored(groups: map<Uuid, GroupRow>, flat: seq<FlatGroup>) {
    forall f :: f in flat ==> f.node.id in groups && groups[f.node.id].parent == f.parent
  }

  ghost predicate HandedDown(groups: map<Uuid, GroupRow>, parent: Option<Uuid>, under: bool) {
    under <==> parent.Some? && InBin(groups, parent.value)
  }

  /** The flag handed down top-down equals the bottom-up walk, entry by entry. */
  lemma {:induction false} FlagIsWalk(groups: map<Uuid, GroupRow>, group: GroupNode, parent: Option<Uuid>, sortOrder: int,
                                      bin: Option<Uuid>, under: bool)
    requires Stored(groups, Collect(group, parent, sortOrder)) && HandedDown(groups, parent, under)
    requires forall u :: u in groups ==> (IsBin(groups, u) <==> bin == Some(u))
    ensures forall r :: r in Flag(group, bin, under) ==> (r.isRecycled <==> InBin(groups, r.group))
    decreases group, 1
  {
    var flat := Collect(group, parent, sortOrder);
    assert flat[0] in flat;
    InBinStep(groups, group.id);
    var rest := CollectChildren(group.groups, group.id, 0);
    assert forall f :: f in rest ==> f in flat;
    FlagBelowIsWalk(groups, group.groups, group.id, 0, bin, under || bin == Some(group.id));
  }

  lemma {:induction false} FlagBelowIsWalk(groups: map<Uuid, GroupRow>, children: seq<GroupNode>, parent: Uuid, position: int,
                                           bin: Option<Uuid>, under: bool)
    requires Stored(groups, CollectChildren(children, parent, position)) && HandedDown(groups, Some(parent), under)
    requires forall u :: u in groups ==> (IsBin(groups, u) <==> bin == Some(u))
    ensures forall r :: r in FlagBelow(children, bin, under) ==> (r.isRecycled <==> InBin(groups, r.group))
    decreases children, 0
  {
    if children != [] {
      var first := Collect(children[0], Some(parent), position);
      var rest := CollectChildren(children[1..], parent, position + 1);
      assert forall f :: f in first || f in rest ==> f in CollectChildren(children, parent, position);
      FlagIsWalk(groups, children[0], Some(parent), position, bin, under);
      FlagBelowIsWalk(groups, children[1..], parent, position + 1, bin, under);
    }
  }

  // ----- the flagged walk visits the same entries in the same groups

  function Unflagged(rows: seq<EntryRow>): (placed: seq<EntrySync.Placed>)
    ensures |placed| == |rows| && forall i :: 0 <= i < |rows| ==> placed[i] == EntrySync.Placed(rows[i].entry, rows[i].group)
  {
    seq(|rows|, i requires 0 <= i < |rows| => EntrySync.Placed(rows[i].entry, rows[i].group))
  }

  lemma {:induction false} FlagVisitsAll(group: GroupNode, bin: Option<Uuid>, under: bool)
    ensures Unflagged(Flag(group, bin, under)) == CollectEntries(group)
    decreases group, 1
  {
    FlagBelowVisitsAll(group.groups, bin, under || bin == Some(group.id));
  }

  lemma {:induction false} FlagBelowVisitsAll(groups: seq<GroupNode>, bin: Option<Uuid>, under: bool)
    ensures Unflagged(FlagBelow(groups, bin, under)) == CollectEntriesBelow(groups)
    decreases groups, 0
  {
    if groups != [] {
      FlagVisitsAll(groups[0], bin, under);
      FlagBelowVisitsAll(groups[1..], bin, under);
    }
  }

  // ----- the fields of all entries

  ghost predicate AllFit(placed: seq<EntrySync.Placed>) {
    forall i :: 0 <= i < |placed| ==> EntryFields.EntryFits(placed[i].entry)
  }

  method InsertAllFields(placed: seq<EntrySync.Placed>) returns (ok: bool, rows: map<Uuid, EntryFields.FieldRows>)
    requires DistinctEntries(placed)
    ensures ok <==> AllFit(placed)
    ensures ok ==> forall i :: 0 <= i < |placed| ==>
              placed[i].entry.id in rows && EntryFields.Holds(rows[placed[i].entry.id], placed[i].entry.live.password, placed[i].entry.live.customFields)
  {
    rows := map[];
    for n := 0 to |placed|
      invariant forall i :: 0 <= i < n ==>
                  EntryFields.EntryFits(placed[i].entry)
                  && placed[i].entry.id in rows && EntryFields.Holds(rows[placed[i].entry.id], placed[i].entry.live.password, placed[i].entry.live.customFields)
    {
      var inserted := EntryFields.InsertRows(placed[n].entry);
      if inserted.None? {
        return false, rows;
      }
      rows := rows[placed[n].entry.id := inserted.value];
    }
    ok := true;
  }

  // ----- the ingest

  predicate DistinctDeletions(deleted: seq<DeletedObject>) {
    forall i, j :: 0 <= i < j < |deleted| ==> deleted[i].id != deleted[j].id
  }

  function InsertDeletions(deleted: seq<DeletedObject>): map<Uuid, Option<int>> {
    if deleted == [] then map[]
    else InsertDeletions(deleted[..|deleted| - 1])[deleted[|deleted| - 1].id := deleted[|deleted| - 1].deletedAt]
  }

  lemma {:induction false} InsertedDeletions(deleted: seq<DeletedObject>)
    requires DistinctDeletions(deleted)
    ensures InsertDeletions(deleted) == TombstoneMap(deleted)
  {
    if deleted != [] {
      var rest := deleted[..|deleted| - 1];
      InsertedDeletions(rest);
      TombstoneMapMeans(rest, deleted[|deleted| - 1].id);
    }
  }

  /** The bin the vault names is one of its groups, if it names one. */
  ghost predicate BinResolves(v: Vault) {
    v.meta.recycleBin.Some? ==> v.meta.recycleBin.value in Ids(Flatten(v.root))
  }

  /** No two rows of the vault would have one key: of its groups, its entries, the
      fields or custom data of one entry, or its deletions. */
  ghost predicate Insertable(v: Vault) {
    ValidVault(v) && AllFit(CollectEntries(v.root)) && DistinctDeletions(v.deletedObjects)
  }

  /** The tables hold the vault, column by column, and nothing else. */
  ghost predicate HoldsVault(t: Tables, v: Vault) {
    && HoldsGroups(t.groups, Flatten(v.root), v.meta.recycleBin) && HoldsEntries(t.entries, CollectEntries(v.root))
    && HoldsDeletions(t.tombstones, v.deletedObjects)
    && t.icons == v.icons && t.settings == v.meta.settings
  }

  ghost predicate HoldsGroups(groups: map<Uuid, GroupRow>, flat: seq<FlatGroup>, bin: Option<Uuid>) {
    && (forall u :: u in groups ==> exists i :: 0 <= i < |flat| && flat[i].node.id == u)
    && (forall i :: 0 <= i < |flat| ==> flat[i].node.id in groups && HoldsGroup(groups[flat[i].node.id], flat[i], bin))
  }

  ghost predicate HoldsGroup(row: GroupRow, f: FlatGroup, bin: Option<Uuid>) {
    && row.parent == f.parent && row.sortOrder == f.sortOrder
    && row.name == f.node.name && row.notes == f.node.notes && row.icon == f.node.icon && row.customIcon == f.node.customIcon
    && row.modifiedAt == SetAt(f.node) && row.locationChangedAt == f.node.locationChanged
    && (row.isRecycleBin <==> bin == Some(f.node.id))
  }

  ghost predicate HoldsEntries(entries: map<Uuid, EntryRow>, placed: seq<EntrySync.Placed>) {
    && (forall u :: u in entries ==> exists i :: 0 <= i < |placed| && placed[i].entry.id == u)
    && (forall i :: 0 <= i < |placed| ==>
          placed[i].entry.id in entries
          && entries[placed[i].entry.id].entry == placed[i].entry && entries[placed[i].entry.id].group == placed[i].group)
  }

  ghost predicate HoldsDeletions(tombstones: map<Uuid, Option<int>>, deleted: seq<DeletedObject>) {
    && (forall u :: u in tombstones ==> exists i :: 0 <= i < |deleted| && deleted[i].id == u)
    && (forall i :: 0 <= i < |deleted| ==> deleted[i].id in tombstones && tombstones[deleted[i].id] == deleted[i].deletedAt)
  }

  /** Wipe and rebuild. A repeated key fails its insert and nothing changes.
      Parked conflicts stay. */
  method IngestVault(m: Mirror, v: Vault) returns (ok: bool)
    modifies m
    ensures ok <==> Insertable(v)
    ensures !ok ==> Contents(m) == old(Contents(m)) && m.mutationSeq == old(m.mutationSeq)
    ensures ok ==> GroupTree(m.groups, v.root.id) && AtMostOneBin(m.groups) && FlagsExact(m.groups, m.entries)
    ensures ok ==> HoldsVault(Contents(m), v)
    ensures ok && BinResolves(v) ==> Represents(Contents(m), v)
    ensures ok ==> m.mutationSeq > old(m.mutationSeq)
    ensures m.conflicts == old(m.conflicts)
  {
    if !DistinctIds(Flatten(v.root)) || !DistinctEntries(CollectEntries(v.root)) || !DistinctDeletions(v.deletedObjects) {
      return false;
    }
    var fit, rows := InsertAllFields(CollectEntries(v.root));
    if !fit {
      return false;
    }
    Rebuild(m, v);
    Ingested(Contents(m), v);
    ok := true;
  }

  method Rebuild(m: Mirror, v: Vault)
    modifies m
    ensures Contents(m) == Tables(InsertGroups(map[], Flatten(v.root), v.meta.recycleBin),
                                  InsertEntries(map[], Flag(v.root, v.meta.recycleBin, false)),
                                  InsertDeletions(v.deletedObjects), old(m.conflicts), v.icons, v.meta.settings)
    ensures m.mutationSeq > old(m.mutationSeq)
  {
    m.groups, m.entries := map[], map[];
    m.settings, m.icons, m.tombstones := v.meta.settings, v.icons, InsertDeletions(v.deletedObjects);
    WalkGroups(m, v.root, None, 0, v.meta.recycleBin);
    WalkEntries(m, v.root, v.meta.recycleBin, false);
  }

  lemma Ingested(t: Tables, v: Vault)
    requires ValidVault(v) && DistinctDeletions(v.deletedObjects)
    requires t.groups == InsertGroups(map[], Flatten(v.root), v.meta.recycleBin)
    requires t.entries == InsertEntries(map[], Flag(v.root, v.meta.recycleBin, false))
    requires t.tombstones == InsertDeletions(v.deletedObjects) && t.icons == v.icons && t.settings == v.meta.settings
    ensures GroupTree(t.groups, v.root.id) && AtMostOneBin(t.groups) && FlagsExact(t.groups, t.entries)
    ensures HoldsVault(t, v) && (BinResolves(v) ==> Represents(t, v))
  {
    InsertedDeletions(v.deletedObjects);
    DeletionsHeld(v.deletedObjects);
    IngestedGroups(t.groups, v);
    IngestedEntries(t.groups, t.entries, v);
    EntriesRepresented(t.entries, CollectEntries(v.root));
  }

  lemma DeletionsHeld(deleted: seq<DeletedObject>)
    requires DistinctDeletions(deleted)
    ensures HoldsDeletions(TombstoneMap(deleted), deleted)
  {
    forall u | u in TombstoneMap(deleted) ensures exists i :: 0 <= i < |deleted| && deleted[i].id == u {
      TombstoneMapMeans(deleted, u);
    }
    forall i | 0 <= i < |deleted| ensures deleted[i].id in TombstoneMap(deleted) && TombstoneMap(deleted)[deleted[i].id] == deleted[i].deletedAt {
      TombstoneMapMeans(deleted, deleted[i].id);
    }
  }

  lemma EntriesRepresented(entries: map<Uuid, EntryRow>, placed: seq<EntrySync.Placed>)
    requires DistinctEntries(placed) && HoldsEntries(entries, placed)
    ensures entries.Keys == Index(placed).Keys && forall u :: u in entries ==> Stands(entries[u], Index(placed)[u])
  {
    IndexMeans(placed);
    forall u ensures u in entries <==> u in Index(placed)
      ensures u in entries ==> Stands(entries[u], Index(placed)[u])
    {
      if u in entries {
        var i :| 0 <= i < |placed| && placed[i].entry.id == u;
        assert Index(placed)[placed[i].entry.id] == placed[i];
      }
      if u in Index(placed) {
        var i :| 0 <= i < |placed| && placed[i].entry.id == u;
      }
    }
  }

  lemma IngestedGroups(groups: map<Uuid, GroupRow>, v: Vault)
    requires DistinctIds(Flatten(v.root)) && groups == InsertGroups(map[], Flatten(v.root), v.meta.recycleBin)
    ensures Snapshot(groups, v.root) && GroupTree(groups, v.root.id) && Stored(groups, Flatten(v.root))
    ensures HoldsGroups(groups, Flatten(v.root), v.meta.recycleBin)
    ensures forall u :: u in groups ==> (groups[u].isRecycleBin <==> v.meta.recycleBin == Some(u))
    ensures AtMostOneBin(groups)
  {
    var flat := Flatten(v.root);
    InsertedGroups(map[], flat, v.meta.recycleBin);
    SnapshotIsTree(groups, v.root);
    forall u | u in groups ensures groups[u].isRecycleBin <==> v.meta.recycleBin == Some(u) {
      SnapshotFind(groups, v.root, u);
      var i :| 0 <= i < |flat| && flat[i] == Find(flat, u);
    }
    assert OnlyBin(groups, v.meta.recycleBin);
  }

  lemma IngestedEntries(groups: map<Uuid, GroupRow>, entries: map<Uuid, EntryRow>, v: Vault)
    requires Stored(groups, Flatten(v.root)) && DistinctEntries(CollectEntries(v.root))
    requires forall u :: u in groups ==> (groups[u].isRecycleBin <==> v.meta.recycleBin == Some(u))
    requires entries == InsertEntries(map[], Flag(v.root, v.meta.recycleBin, false))
    ensures FlagsExact(groups, entries)
    ensures HoldsEntries(entries, CollectEntries(v.root))
  {
    var placed, rows := CollectEntries(v.root), Flag(v.root, v.meta.recycleBin, false);
    FlagVisitsAll(v.root, v.meta.recycleBin, false);
    FlagIsWalk(groups, v.root, None, 0, v.meta.recycleBin, false);
    assert DistinctRows(rows) by {
      forall i, j | 0 <= i < j < |rows| ensures rows[i].entry.id != rows[j].entry.id {
        assert placed[i].entry.id != placed[j].entry.id;
      }
    }
    EntriesHeld(entries, rows, placed);
    FlagsFollow(groups, entries, rows);
  }

  lemma EntriesHeld(entries: map<Uuid, EntryRow>, rows: seq<EntryRow>, placed: seq<EntrySync.Placed>)
    requires DistinctRows(rows) && Unflagged(rows) == placed && entries == InsertEntries(map[], rows)
    ensures HoldsEntries(entries, placed)
  {
    InsertedEntries(map[], rows);
    forall u | u in entries ensures exists i :: 0 <= i < |placed| && placed[i].entry.id == u {
      var i :| 0 <= i < |rows| && rows[i].entry.id == u;
      assert placed[i].entry.id == u;
    }
  }

  lemma FlagsFollow(groups: map<Uuid, GroupRow>, entries: map<Uuid, EntryRow>, rows: seq<EntryRow>)
    requires DistinctRows(rows) && entries == InsertEntries(map[], rows)
    requires forall r :: r in rows ==> (r.isRecycled <==> InBin(groups, r.group))
    ensures FlagsExact(groups, entries)
  {
    InsertedEntries(map[], rows);
    forall u | u in entries ensures entries[u].isRecycled <==> InBin(groups, entries[u].group) {
      var i :| 0 <= i < |rows| && rows[i].entry.id == u;
      assert rows[i] in rows;
    }
  }
}
