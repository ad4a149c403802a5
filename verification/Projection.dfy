/** Rebuilding a vault from the mirror's tables. */
module Projection {
  import opened Order
  import opened GroupGraph
  import opened Store
  import opened EntryRules
  import opened BinWalk
  import opened GroupSync
  import opened GroupTombstones
  import opened GroupDelete
  import opened EntrySync
  import opened PeerPass
  import opened PassSoundness

  // ----- listings

  /** The ids in some order, each once. */
  ghost function Listing(s: set<Uuid>): seq<Uuid> {
    if exists u: Uuid :: u in s then
      var u: Uuid :| u in s;
      [u] + Listing(s - {u})
    else []
  }

  function Members(list: seq<Uuid>): set<Uuid> {
    set u | u in list
  }

  ghost predicate Once(list: seq<Uuid>) {
    forall i, j :: 0 <= i < j < |list| ==> list[i] != list[j]
  }

  lemma {:induction false} ListingMeans(s: set<Uuid>)
    ensures Once(Listing(s)) && forall u :: u in Listing(s) <==> u in s
  {
    if exists u: Uuid :: u in s {
      var u: Uuid :| u in s && Listing(s) == [u] + Listing(s - {u});
      ListingMeans(s - {u});
      var rest := Listing(s - {u});
      forall j | 0 <= j < |rest| ensures rest[j] != u {
        assert rest[j] in rest;
      }
    }
  }

  // ----- the group tree

  lemma ChildSubtree(groups: map<Uuid, GroupRow>, u: Uuid, c: Uuid)
    requires Acyclic(ParentsOf(groups)) && u in groups && c in ChildrenOf(groups, u)
    ensures Subtree(groups, c) < Subtree(groups, u)
  {
    var p := ParentsOf(groups);
    WithinSelf(p, u);
    WithinSelf(p, c);
    WithinChild(p, c, u);
    NotBelowChild(groups, u, c);
    forall d | d in Subtree(groups, c) ensures d in Subtree(groups, u) {
      WithinTransitive(p, d, c, u);
    }
    assert u in Subtree(groups, u) && u !in Subtree(groups, c);
  }

  /** A version with its stamp to the second. */
  function ToSecond(v: Version): Version {
    v.(modified := FloorOption(v.modified))
  }

  function Shown(e: Entry): Entry {
    e.(live := ToSecond(e.live), locationChanged := FloorOption(e.locationChanged),
       history := seq(|e.history|, i requires 0 <= i < |e.history| => ToSecond(e.history[i])))
  }

  ghost function HeldBy(entries: map<Uuid, EntryRow>, u: Uuid): set<Uuid> {
    set e | e in entries && entries[e].group == u
  }

  ghost function EntryNodes(entries: map<Uuid, EntryRow>, list: seq<Uuid>): (nodes: seq<Entry>)
    requires forall e :: e in list ==> e in entries
    ensures |nodes| == |list| && forall i :: 0 <= i < |list| ==> nodes[i] == Shown(entries[list[i]].entry)
  {
    seq(|list|, i requires 0 <= i < |list| => Shown(entries[list[i]].entry))
  }

  ghost function EntriesOf(entries: map<Uuid, EntryRow>, u: Uuid): seq<Entry> {
    ListingMeans(HeldBy(entries, u));
    EntryNodes(entries, Listing(HeldBy(entries, u)))
  }

  /** The subtree at `u`, with stamps to the second. */
  ghost function Build(groups: map<Uuid, GroupRow>, entries: map<Uuid, EntryRow>, u: Uuid): GroupNode
    requires Acyclic(ParentsOf(groups)) && u in groups
    decreases Subtree(groups, u), 1, 0
  {
    ListingMeans(ChildrenOf(groups, u));
    var row := groups[u];
    GroupNode(u, row.name, row.notes, row.icon, row.customIcon, Some(FloorToSecond(row.modifiedAt)),
              FloorOption(row.locationChangedAt), EntriesOf(entries, u), BuildAll(groups, entries, u, Listing(ChildrenOf(groups, u))))
  }

  ghost function BuildAll(groups: map<Uuid, GroupRow>, entries: map<Uuid, EntryRow>, u: Uuid, list: seq<Uuid>): (nodes: seq<GroupNode>)
    requires Acyclic(ParentsOf(groups)) && u in groups && forall c :: c in list ==> c in ChildrenOf(groups, u)
    ensures |nodes| == |list|
    decreases Subtree(groups, u), 0, |list|
  {
    if list == [] then []
    else
      assert list[0] in list;
      ChildSubtree(groups, u, list[0]);
      [Build(groups, entries, list[0])] + BuildAll(groups, entries, u, list[1..])
  }

  /** The flattened form names exactly `ids`, each once, with its node and parent. */
  ghost predicate Covers(groups: map<Uuid, GroupRow>, flat: seq<FlatGroup>, ids: set<Uuid>, top: Uuid, above: Option<Uuid>) {
    && DistinctIds(flat) && Ids(flat) == ids && ids <= groups.Keys
    && forall i :: 0 <= i < |flat| ==> FlatMatches(groups, flat[i], top, above)
  }

  ghost predicate FlatMatches(groups: map<Uuid, GroupRow>, f: FlatGroup, top: Uuid, above: Option<Uuid>) {
    f.node.id in groups
    && var row := groups[f.node.id];
       && f.node.name == row.name && f.node.notes == row.notes && f.node.icon == row.icon && f.node.customIcon == row.customIcon
       && f.node.modified == Some(FloorToSecond(row.modifiedAt)) && f.node.locationChanged == FloorOption(row.locationChangedAt)
       && f.parent == if f.node.id == top then above else row.parent
  }

  lemma SubtreesApart(groups: map<Uuid, GroupRow>, u: Uuid, a: Uuid, b: Uuid)
    requires Acyclic(ParentsOf(groups)) && a in ChildrenOf(groups, u) && b in ChildrenOf(groups, u) && a != b
    ensures Subtree(groups, a) !! Subtree(groups, b)
  {
    var p := ParentsOf(groups);
    if d :| d in Subtree(groups, a) && d in Subtree(groups, b) {
      var m: nat :| Ancestor(p, d, m) == Some(a);
      var n: nat :| Ancestor(p, d, n) == Some(b);
      if m <= n {
        AncestorSplit(p, d, m, n - m);
        assert Within(p, a, b);
        SiblingsApart(groups, u, a, b);
      } else {
        AncestorSplit(p, d, n, m - n);
        assert Within(p, b, a);
        SiblingsApart(groups, u, b, a);
      }
    }
  }

  lemma {:induction false} BuildCovers(groups: map<Uuid, GroupRow>, entries: map<Uuid, EntryRow>, u: Uuid, parent: Option<Uuid>, sortOrder: int)
    requires Acyclic(ParentsOf(groups)) && u in groups
    ensures Covers(groups, Collect(Build(groups, entries, u), parent, sortOrder), Subtree(groups, u), u, parent)
    decreases Subtree(groups, u), 1, 0
  {
    var list := Listing(ChildrenOf(groups, u));
    ListingMeans(ChildrenOf(groups, u));
    var node := Build(groups, entries, u);
    assert node.groups == BuildAll(groups, entries, u, list);
    BuildAllCovers(groups, entries, u, list, 0);
    BelowChildren(groups, u);
    assert Members(list) == ChildrenOf(groups, u);
    assert u !in Below(groups, Members(list));
    var rest := CollectChildren(BuildAll(groups, entries, u, list), u, 0);
    assert Covers(groups, rest, Below(groups, Members(list)), u, parent);
    assert Ids(rest) + {u} == Subtree(groups, u);
    TopAndRest(groups, FlatGroup(node, parent, sortOrder), CollectChildren(node.groups, u, 0), u, parent);
  }

  lemma TopAndRest(groups: map<Uuid, GroupRow>, first: FlatGroup, rest: seq<FlatGroup>, u: Uuid, parent: Option<Uuid>)
    requires u in groups && first.node.id == u && FlatMatches(groups, first, u, parent)
    requires Covers(groups, rest, Ids(rest), u, parent) && u !in Ids(rest)
    ensures Covers(groups, [first] + rest, Ids(rest) + {u}, u, parent)
  {
    var flat := [first] + rest;
    forall j | 0 <= j < |rest| ensures rest[j].node.id != u {
      assert rest[j] in rest;
    }
    assert forall f :: f in flat <==> f == first || f in rest;
  }

  lemma {:induction false} BuildAllCovers(groups: map<Uuid, GroupRow>, entries: map<Uuid, EntryRow>, u: Uuid, list: seq<Uuid>, position: int)
    requires Acyclic(ParentsOf(groups)) && u in groups && Once(list) && forall c :: c in list ==> c in ChildrenOf(groups, u)
    ensures forall top, above :: top !in Below(groups, Members(list)) ==>
              Covers(groups, CollectChildren(BuildAll(groups, entries, u, list), u, position), Below(groups, Members(list)), top, above)
    decreases Subtree(groups, u), 0, |list|
  {
    if list != [] {
      var c := list[0];
      assert c in list;
      ChildSubtree(groups, u, c);
      BuildCovers(groups, entries, c, Some(u), position);
      BuildAllCovers(groups, entries, u, list[1..], position + 1);
      var first := Collect(Build(groups, entries, c), Some(u), position);
      var rest := CollectChildren(BuildAll(groups, entries, u, list[1..]), u, position + 1);
      ListApart(groups, u, list);
      assert BuildAll(groups, entries, u, list)[1..] == BuildAll(groups, entries, u, list[1..]);
      forall top, above | top !in Below(groups, Members(list))
        ensures Covers(groups, first + rest, Below(groups, Members(list)), top, above)
      {
        FlatsJoin(groups, first, rest, c, u, Below(groups, Members(list[1..])), top, above);
      }
    }
  }

  /** The first child's subtree, and those of the others. */
  lemma ListApart(groups: map<Uuid, GroupRow>, u: Uuid, list: seq<Uuid>)
    requires Acyclic(ParentsOf(groups)) && list != [] && Once(list) && forall c :: c in list ==> c in ChildrenOf(groups, u)
    ensures Below(groups, Members(list)) == Below(groups, Members(list[1..])) + Subtree(groups, list[0])
    ensures Subtree(groups, list[0]) !! Below(groups, Members(list[1..]))
  {
    assert Members(list) == Members(list[1..]) + {list[0]};
    BelowGrows(groups, Members(list[1..]), list[0]);
    assert list[0] in list;
    forall d | d in Below(groups, Members(list[1..])) ensures d !in Subtree(groups, list[0]) {
      var b :| b in list[1..] && Within(ParentsOf(groups), d, b);
      var i :| 0 <= i < |list[1..]| && list[1..][i] == b;
      assert list[i + 1] == b && b in list;
      SubtreesApart(groups, u, list[0], b);
    }
  }

  lemma FlatsJoin(groups: map<Uuid, GroupRow>, first: seq<FlatGroup>, rest: seq<FlatGroup>, c: Uuid, u: Uuid, others: set<Uuid>, top: Uuid, above: Option<Uuid>)
    requires c in ChildrenOf(groups, u) && Covers(groups, first, Subtree(groups, c), c, Some(u))
    requires Subtree(groups, c) !! others && top !in Subtree(groups, c) && top !in others
    requires Covers(groups, rest, others, top, above)
    ensures Covers(groups, first + rest, others + Subtree(groups, c), top, above)
  {
    var flat := first + rest;
    assert forall f :: f in flat <==> f in first || f in rest;
    assert Ids(flat) == Ids(first) + Ids(rest);
    forall i, j | 0 <= i < j < |flat| ensures flat[i].node.id != flat[j].node.id {
      if i < |first| && |first| <= j {
        assert flat[i] in first && flat[j] in rest;
        assert flat[i].node.id in Ids(first) && flat[j].node.id in Ids(rest);
      }
    }
    forall i | 0 <= i < |flat| ensures FlatMatches(groups, flat[i], top, above) {
      if i < |first| {
        assert FlatMatches(groups, first[i], c, Some(u));
        assert first[i].node.id in Ids(first);
      } else {
        assert FlatMatches(groups, rest[i - |first|], top, above);
      }
    }
  }

  // ----- the entries

  /** Each row is keyed by its entry's id. */
  ghost predicate Keyed(entries: map<Uuid, EntryRow>) {
    forall e :: e in entries ==> entries[e].entry.id == e
  }

  /** The list places exactly the entries in `groups`, each once. */
  ghost predicate Houses(entries: map<Uuid, EntryRow>, placed: seq<EntrySync.Placed>, groups: set<Uuid>) {
    && DistinctEntries(placed)
    && (forall i :: 0 <= i < |placed| ==> PlacedRight(entries, placed[i], groups))
    && (forall e :: e in entries && entries[e].group in groups ==> exists i :: 0 <= i < |placed| && placed[i].entry.id == e)
  }

  ghost predicate PlacedRight(entries: map<Uuid, EntryRow>, p: EntrySync.Placed, groups: set<Uuid>) {
    p.entry.id in entries && p == EntrySync.Placed(Shown(entries[p.entry.id].entry), entries[p.entry.id].group) && p.group in groups
  }

  lemma OwnHoused(entries: map<Uuid, EntryRow>, u: Uuid)
    requires Keyed(entries)
    ensures Houses(entries, PlaceAll(EntriesOf(entries, u), u), {u})
  {
    var list, placed := Listing(HeldBy(entries, u)), PlaceAll(EntriesOf(entries, u), u);
    ListingMeans(HeldBy(entries, u));
    forall i | 0 <= i < |list| ensures list[i] in entries && placed[i].entry.id == list[i] && PlacedRight(entries, placed[i], {u}) {
      assert list[i] in list;
    }
    forall e | e in entries && entries[e].group in {u} ensures exists i :: 0 <= i < |placed| && placed[i].entry.id == e {
      assert e in list;
      var i :| 0 <= i < |list| && list[i] == e;
      assert placed[i].entry.id == e;
    }
  }

  lemma HousesJoin(entries: map<Uuid, EntryRow>, first: seq<EntrySync.Placed>, rest: seq<EntrySync.Placed>, a: set<Uuid>, b: set<Uuid>)
    requires Houses(entries, first, a) && Houses(entries, rest, b) && a !! b
    ensures Houses(entries, first + rest, a + b)
  {
    var placed := first + rest;
    forall i | 0 <= i < |placed| ensures PlacedRight(entries, placed[i], a + b) {
      assert if i < |first| then PlacedRight(entries, first[i], a) else PlacedRight(entries, rest[i - |first|], b);
    }
    forall i, j | 0 <= i < j < |placed| ensures placed[i].entry.id != placed[j].entry.id {
      if i < |first| && |first| <= j {
        assert PlacedRight(entries, first[i], a) && PlacedRight(entries, rest[j - |first|], b);
      }
    }
    forall e | e in entries && entries[e].group in a + b ensures exists i :: 0 <= i < |placed| && placed[i].entry.id == e {
      if entries[e].group in a {
        var i :| 0 <= i < |first| && first[i].entry.id == e;
        assert placed[i].entry.id == e;
      } else {
        var i :| 0 <= i < |rest| && rest[i].entry.id == e;
        assert placed[|first| + i].entry.id == e;
      }
    }
  }

  lemma {:induction false} BuildHouses(groups: map<Uuid, GroupRow>, entries: map<Uuid, EntryRow>, u: Uuid)
    requires Acyclic(ParentsOf(groups)) && u in groups && Keyed(entries)
    ensures Houses(entries, CollectEntries(Build(groups, entries, u)), Subtree(groups, u))
    decreases Subtree(groups, u), 1, 0
  {
    var list := Listing(ChildrenOf(groups, u));
    ListingMeans(ChildrenOf(groups, u));
    var node := Build(groups, entries, u);
    assert node.groups == BuildAll(groups, entries, u, list) && node.entries == EntriesOf(entries, u);
    BuildAllHouses(groups, entries, u, list);
    BelowChildren(groups, u);
    assert Members(list) == ChildrenOf(groups, u);
    OwnHoused(entries, u);
    HousesJoin(entries, PlaceAll(node.entries, u), CollectEntriesBelow(node.groups), {u}, Below(groups, Members(list)));
    assert {u} + Below(groups, Members(list)) == Subtree(groups, u);
  }

  lemma {:induction false} BuildAllHouses(groups: map<Uuid, GroupRow>, entries: map<Uuid, EntryRow>, u: Uuid, list: seq<Uuid>)
    requires Acyclic(ParentsOf(groups)) && u in groups && Keyed(entries) && Once(list) && forall c :: c in list ==> c in ChildrenOf(groups, u)
    ensures Houses(entries, CollectEntriesBelow(BuildAll(groups, entries, u, list)), Below(groups, Members(list)))
    decreases Subtree(groups, u), 0, |list|
  {
    if list != [] {
      assert list[0] in list;
      ChildSubtree(groups, u, list[0]);
      BuildHouses(groups, entries, list[0]);
      BuildAllHouses(groups, entries, u, list[1..]);
      ListApart(groups, u, list);
      assert BuildAll(groups, entries, u, list)[1..] == BuildAll(groups, entries, u, list[1..]);
      HousesJoin(entries, CollectEntries(Build(groups, entries, list[0])), CollectEntriesBelow(BuildAll(groups, entries, u, list[1..])),
                 Subtree(groups, list[0]), Below(groups, Members(list[1..])));
      assert Subtree(groups, list[0]) + Below(groups, Members(list[1..])) == Below(groups, Members(list));
    }
  }

  // ----- the vault

  ghost function DeletionsOf(tombstones: map<Uuid, Option<int>>, list: seq<Uuid>): (deleted: seq<DeletedObject>)
    requires forall u :: u in list ==> u in tombstones
    ensures |deleted| == |list| && forall i :: 0 <= i < |list| ==> deleted[i] == DeletedObject(list[i], tombstones[list[i]])
  {
    seq(|list|, i requires 0 <= i < |list| => DeletedObject(list[i], tombstones[list[i]]))
  }

  lemma {:induction false} DeletionsMean(tombstones: map<Uuid, Option<int>>, list: seq<Uuid>)
    requires Once(list) && forall u :: u in list ==> u in tombstones
    ensures TombstoneMap(DeletionsOf(tombstones, list)) == map u | u in list :: tombstones[u]
  {
    if list != [] {
      var front, last := list[..|list| - 1], list[|list| - 1];
      DeletionsMean(tombstones, front);
      assert DeletionsOf(tombstones, list)[..|list| - 1] == DeletionsOf(tombstones, front);
      assert list == front + [last];
      OneMoreId(tombstones, front, last);
    }
  }

  lemma OneMoreId(tombstones: map<Uuid, Option<int>>, front: seq<Uuid>, last: Uuid)
    requires Once(front + [last]) && forall u :: u in front + [last] ==> u in tombstones
    ensures last !in front && forall u :: u in front ==> u in tombstones
    ensures (map u | u in front + [last] :: tombstones[u]) == (map u | u in front :: tombstones[u])[last := tombstones[last]]
  {
    var list := front + [last];
    assert list[|front|] == last;
    forall i | 0 <= i < |front| ensures front[i] != last {
      assert list[i] == front[i];
    }
  }

  /** The tables as `Sound` has them, keyed. */
  ghost predicate Projectable(t: Tables, root: Uuid) {
    Sound(t, root) && Keyed(t.entries)
  }

  ghost function BinOf(groups: map<Uuid, GroupRow>): (bin: Option<Uuid>)
    requires AtMostOneBin(groups)
    ensures bin.Some? ==> IsBin(groups, bin.value)
    ensures forall u :: u in groups ==> (groups[u].isRecycleBin <==> bin == Some(u))
  {
    var only: Option<Uuid> :| OnlyBin(groups, only);
    if only.Some? && IsBin(groups, only.value) then only else None
  }

  /** The vault these tables project to. The resolution records ride in custom data
      that the tables here do not hold. */
  ghost function Project(t: Tables, root: Uuid, resolutions: seq<Resolution>): Vault
    requires Projectable(t, root)
  {
    GroupsClosedParents(t.groups, root);
    AcyclicIsTree(ParentsOf(t.groups), root);
    ListingMeans(t.tombstones.Keys);
    Vault(Build(t.groups, t.entries, root), DeletionsOf(t.tombstones, Listing(t.tombstones.Keys)),
          Meta(t.settings, BinOf(t.groups)), resolutions, t.icons)
  }

  lemma WholeTree(groups: map<Uuid, GroupRow>, root: Uuid)
    requires GroupTree(groups, root)
    ensures Acyclic(ParentsOf(groups)) && Subtree(groups, root) == groups.Keys
  {
    GroupsClosedParents(groups, root);
    AcyclicIsTree(ParentsOf(groups), root);
    WithinSelf(ParentsOf(groups), root);
    forall u | u in groups ensures u in Subtree(groups, root) {
      assert u == root || ReachesRoot(ParentsOf(groups), root, u);
    }
  }

  /** Sound tables have a projection: the vault represents them. */
  lemma ProjectionExists(t: Tables, root: Uuid, resolutions: seq<Resolution>)
    requires Projectable(t, root)
    ensures var v := Project(t, root, resolutions);
            Represents(t, v) && WholeEdits(v) && v.root.id == root
  {
    var v := Project(t, root, resolutions);
    TreeProjected(t, root);
    ListingMeans(t.tombstones.Keys);
    DeletionsMean(t.tombstones, Listing(t.tombstones.Keys));
    assert TombstoneMap(v.deletedObjects) == t.tombstones;
  }

  /** Its groups and entries. */
  lemma TreeProjected(t: Tables, root: Uuid)
    requires Projectable(t, root)
    ensures Acyclic(ParentsOf(t.groups))
    ensures var node := Build(t.groups, t.entries, root);
            var index := Index(CollectEntries(node));
            && Snapshot(t.groups, node) && DistinctEntries(CollectEntries(node))
            && index.Keys == t.entries.Keys && (forall u :: u in t.entries ==> Stands(t.entries[u], index[u]))
            && forall i :: 0 <= i < |CollectEntries(node)| ==> Whole(CollectEntries(node)[i].entry.live.modified)
  {
    WholeTree(t.groups, root);
    var node := Build(t.groups, t.entries, root);
    BuildCovers(t.groups, t.entries, root, None, 0);
    BuildHouses(t.groups, t.entries, root);
    SnapshotOf(t, node, root);
    EntriesStandIn(t.entries, CollectEntries(node), t.groups.Keys);
  }

  lemma SnapshotOf(t: Tables, node: GroupNode, root: Uuid)
    requires GroupTree(t.groups, root) && Covers(t.groups, Flatten(node), t.groups.Keys, root, None)
    ensures Snapshot(t.groups, node)
  {
    var flat := Flatten(node);
    forall i | 0 <= i < |flat| ensures SameGroup(t.groups[flat[i].node.id], flat[i]) {
      assert FlatMatches(t.groups, flat[i], root, None);
      FloorIdempotent(t.groups[flat[i].node.id].locationChangedAt);
    }
  }

  /** What is projected of a row stands for it. */
  lemma ShownStands(row: EntryRow)
    ensures Stands(row, EntrySync.Placed(Shown(row.entry), row.group)) && Whole(Shown(row.entry).live.modified)
  {
    FloorIdempotent(row.entry.live.modified);
    FloorIdempotent(row.entry.locationChanged);
    forall i | 0 <= i < |row.entry.history| ensures SameToSecond(row.entry.history[i], Shown(row.entry).history[i]) {
      FloorIdempotent(row.entry.history[i].modified);
    }
  }

  lemma EntriesStandIn(entries: map<Uuid, EntryRow>, placed: seq<EntrySync.Placed>, groups: set<Uuid>)
    requires Houses(entries, placed, groups) && forall e :: e in entries ==> entries[e].group in groups
    ensures Index(placed).Keys == entries.Keys
    ensures forall u :: u in entries ==> Stands(entries[u], Index(placed)[u])
    ensures forall i :: 0 <= i < |placed| ==> Whole(placed[i].entry.live.modified)
  {
    forall i | 0 <= i < |placed| ensures Whole(placed[i].entry.live.modified) && placed[i].entry.id in entries {
      HousedWhole(entries, placed, groups, i);
    }
    IndexMeans(placed);
    forall u | u in entries ensures u in Index(placed) && Stands(entries[u], Index(placed)[u]) {
      HousedStands(entries, placed, groups, u);
    }
  }

  lemma HousedWhole(entries: map<Uuid, EntryRow>, placed: seq<EntrySync.Placed>, groups: set<Uuid>, i: nat)
    requires Houses(entries, placed, groups) && i < |placed|
    ensures Whole(placed[i].entry.live.modified) && placed[i].entry.id in entries
  {
    assert PlacedRight(entries, placed[i], groups);
    ShownStands(entries[placed[i].entry.id]);
  }

  lemma HousedStands(entries: map<Uuid, EntryRow>, placed: seq<EntrySync.Placed>, groups: set<Uuid>, u: Uuid)
    requires Houses(entries, placed, groups) && u in entries && entries[u].group in groups
    ensures u in Index(placed) && Stands(entries[u], Index(placed)[u])
  {
    IndexMeans(placed);
    var i :| 0 <= i < |placed| && placed[i].entry.id == u;
    assert PlacedRight(entries, placed[i], groups);
    ShownStands(entries[u]);
  }
}
