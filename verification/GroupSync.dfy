/** Folding a peer's group tree into the mirror. */
module GroupSync {
  import opened Order
  import opened GroupGraph
  import opened Store
  import opened GroupCycles

  // ----- the peer's tree, flattened top-down

  /** A group of the peer with its parent there and its position among its siblings. */
  datatype FlatGroup = FlatGroup(node: GroupNode, parent: Option<Uuid>, sortOrder: int)

  function Collect(group: GroupNode, parent: Option<Uuid>, sortOrder: int): seq<FlatGroup>
    decreases group, 1
  {
    [FlatGroup(group, parent, sortOrder)] + CollectChildren(group.groups, group.id, 0)
  }

  function CollectChildren(children: seq<GroupNode>, parent: Uuid, position: int): seq<FlatGroup>
    decreases children, 0
  {
    if children == [] then []
    else Collect(children[0], Some(parent), position) + CollectChildren(children[1..], parent, position + 1)
  }

  function Flatten(root: GroupNode): seq<FlatGroup> {
    Collect(root, None, 0)
  }

  predicate DistinctIds(flat: seq<FlatGroup>) {
    forall i, j :: 0 <= i < j < |flat| ==> flat[i].node.id != flat[j].node.id
  }

  function Ids(flat: seq<FlatGroup>): set<Uuid> {
    set f | f in flat :: f.node.id
  }

  /** Every group comes after its parent. */
  ghost predicate TopDown(flat: seq<FlatGroup>) {
    && |flat| > 0 && flat[0].parent == None
    && forall i :: 1 <= i < |flat| ==> ParentEarlier(flat, i)
  }

  ghost predicate ParentEarlier(flat: seq<FlatGroup>, i: nat)
    requires i < |flat|
  {
    flat[i].parent.Some? && exists j :: 0 <= j < i && flat[j].node.id == flat[i].parent.value
  }

  lemma {:induction false} CollectTopDown(group: GroupNode, parent: Option<Uuid>, sortOrder: int)
    ensures Collect(group, parent, sortOrder)[0] == FlatGroup(group, parent, sortOrder)
    ensures forall i :: 1 <= i < |Collect(group, parent, sortOrder)| ==>
                          ParentEarlier(Collect(group, parent, sortOrder), i)
    decreases group, 1
  {
    var rest := CollectChildren(group.groups, group.id, 0);
    var all := Collect(group, parent, sortOrder);
    CollectChildrenTopDown(group.groups, group.id, 0);
    forall i | 1 <= i < |all| ensures ParentEarlier(all, i) {
      assert all[i] == rest[i - 1];
      if rest[i - 1].parent == Some(group.id) {
        assert all[0].node.id == group.id;
      } else {
        var j :| 0 <= j < i - 1 && rest[j].node.id == rest[i - 1].parent.value;
        assert all[j + 1] == rest[j];
      }
    }
  }

  lemma {:induction false} CollectChildrenTopDown(children: seq<GroupNode>, parent: Uuid, position: int)
    ensures forall i :: 0 <= i < |CollectChildren(children, parent, position)| ==>
                          var c := CollectChildren(children, parent, position);
                          c[i].parent == Some(parent) || ParentEarlier(c, i)
    decreases children, 0
  {
    if children != [] {
      var first := Collect(children[0], Some(parent), position);
      var rest := CollectChildren(children[1..], parent, position + 1);
      var all := CollectChildren(children, parent, position);
      CollectTopDown(children[0], Some(parent), position);
      CollectChildrenTopDown(children[1..], parent, position + 1);
      forall i | 0 <= i < |all| ensures all[i].parent == Some(parent) || ParentEarlier(all, i) {
        if i < |first| {
          assert all[i] == first[i];
          if i > 0 {
            assert ParentEarlier(first, i);
            var j :| 0 <= j < i && first[j].node.id == first[i].parent.value;
            assert all[j] == first[j];
          }
        } else {
          var k := i - |first|;
          assert all[i] == rest[k];
          if rest[k].parent != Some(parent) {
            var j :| 0 <= j < k && rest[j].node.id == rest[k].parent.value;
            assert all[j + |first|] == rest[j];
          }
        }
      }
    }
  }

  lemma FlattenTopDown(root: GroupNode)
    ensures TopDown(Flatten(root)) && Flatten(root)[0].node == root
  {
    CollectTopDown(root, None, 0);
  }

  // ----- the per-group rules

  function DtToMs(t: Option<int>): int {
    match t
    case None => 0
    case Some(ms) => ms
  }

  /** A group's name, notes and icon with the whole second they were set. */
  datatype MetadataKey = MetadataKey(stamp: int, name: string, notes: string, icon: int, customIcon: Option<Uuid>)

  function RowMetadata(row: GroupRow): MetadataKey {
    MetadataKey(FloorToSecond(row.modifiedAt), row.name, row.notes, row.icon, row.customIcon)
  }

  function NodeMetadata(node: GroupNode): MetadataKey {
    MetadataKey(FloorToSecond(DtToMs(node.modified)), node.name, node.notes, node.icon, node.customIcon)
  }

  function CompareMetadata(a: MetadataKey, b: MetadataKey): Ordering {
    Then(CompareInts(a.stamp, b.stamp),
      Then(CompareStrings(a.name, b.name),
        Then(CompareStrings(a.notes, b.notes),
          Then(CompareInts(a.icon, b.icon), CompareOptionInts(a.customIcon, b.customIcon)))))
  }

  lemma CompareMetadataTotal(a: MetadataKey, b: MetadataKey)
    ensures CompareMetadata(a, b) == Equal <==> a == b
    ensures CompareMetadata(b, a) == Flip(CompareMetadata(a, b))
  {
    CompareStringsTotal(a.name, b.name);
    CompareStringsTotal(a.notes, b.notes);
  }

  function WithMetadata(row: GroupRow, node: GroupNode): GroupRow {
    if CompareMetadata(NodeMetadata(node), RowMetadata(row)) != Greater then row
    else row.(name := node.name, notes := node.notes, icon := node.icon,
              customIcon := node.customIcon, modifiedAt := DtToMs(node.modified))
  }

  /** A group's parent with the whole second it was moved there. */
  datatype PlaceKey = PlaceKey(stamp: Option<int>, parent: Option<Uuid>)

  function ComparePlaces(a: PlaceKey, b: PlaceKey): Ordering {
    Then(CompareOptionInts(a.stamp, b.stamp), CompareOptionInts(a.parent, b.parent))
  }

  function RowPlace(row: GroupRow): PlaceKey {
    PlaceKey(FloorOption(row.locationChangedAt), row.parent)
  }

  function FlatPlace(f: FlatGroup): PlaceKey {
    PlaceKey(FloorOption(f.node.locationChanged), f.parent)
  }

  /** A winning parent is taken over; a newer stamp on the same parent is not. */
  function WithPlace(row: GroupRow, f: FlatGroup): GroupRow {
    if f.parent == None || ComparePlaces(FlatPlace(f), RowPlace(row)) != Greater || row.parent == f.parent then row
    else row.(parent := f.parent, locationChangedAt := FloorOption(f.node.locationChanged))
  }

  function Merged(row: GroupRow, f: FlatGroup): GroupRow {
    WithPlace(WithMetadata(row, f.node), f)
  }

  /** A group only the peer holds, as an ordinary group. */
  function Adopted(f: FlatGroup): GroupRow {
    GroupRow(f.parent, f.node.name, f.node.notes, f.node.icon, f.node.customIcon,
             DtToMs(f.node.modified), f.node.locationChanged, false, f.sortOrder)
  }

  lemma AdoptedAgrees(f: FlatGroup)
    ensures Merged(Adopted(f), f) == Adopted(f)
  {
    CompareMetadataTotal(NodeMetadata(f.node), RowMetadata(Adopted(f)));
  }

  // ----- the whole table

  ghost function Find(flat: seq<FlatGroup>, u: Uuid): (f: FlatGroup)
    requires u in Ids(flat)
    ensures f in flat && f.node.id == u
  {
    var f :| f in flat && f.node.id == u;
    f
  }

  lemma FindAt(flat: seq<FlatGroup>, i: nat)
    requires DistinctIds(flat) && i < |flat|
    ensures flat[i].node.id in Ids(flat) && Find(flat, flat[i].node.id) == flat[i]
  {
    assert flat[i] in flat;
    var f := Find(flat, flat[i].node.id);
    var j :| 0 <= j < |flat| && flat[j] == f;
  }

  /** The winner for every group either side holds, cycles and all. */
  ghost function MergedGroups(local: map<Uuid, GroupRow>, flat: seq<FlatGroup>): map<Uuid, GroupRow> {
    map u | u in local.Keys + Ids(flat) ::
      if u !in Ids(flat) then local[u]
      else if u in local then Merged(local[u], Find(flat, u))
      else Adopted(Find(flat, u))
  }

  /** The group table after the group half of a peer pass. */
  ghost function AfterPeerGroups(local: map<Uuid, GroupRow>, peerRoot: GroupNode): map<Uuid, GroupRow> {
    var merged := MergedGroups(local, Flatten(peerRoot));
    WithParents(merged, Broken(ParentsOf(merged), peerRoot.id))
  }

  lemma MergedGroupsClosed(local: map<Uuid, GroupRow>, peerRoot: GroupNode)
    requires GroupsClosed(local, peerRoot.id) && DistinctIds(Flatten(peerRoot))
    ensures GroupsClosed(MergedGroups(local, Flatten(peerRoot)), peerRoot.id)
  {
    var flat := Flatten(peerRoot);
    var merged := MergedGroups(local, flat);
    FlattenTopDown(peerRoot);
    FindAt(flat, 0);
    forall u | u in merged
      ensures merged[u].parent == None <==> u == peerRoot.id
      ensures merged[u].parent.Some? ==> merged[u].parent.value in merged
    {
      if u in Ids(flat) {
        var f := Find(flat, u);
        var i :| 0 <= i < |flat| && flat[i] == f;
        if i > 0 {
          assert ParentEarlier(flat, i);
          var j :| 0 <= j < i && flat[j].node.id == f.parent.value;
          FindAt(flat, j);
        }
      }
    }
  }

  /** The group half of a peer pass always leaves one finite tree. */
  lemma AfterPeerGroupsIsTree(local: map<Uuid, GroupRow>, peerRoot: GroupNode)
    requires GroupsClosed(local, peerRoot.id) && DistinctIds(Flatten(peerRoot))
    ensures GroupTree(AfterPeerGroups(local, peerRoot), peerRoot.id)
    ensures AfterPeerGroups(local, peerRoot).Keys == local.Keys + Ids(Flatten(peerRoot))
  {
    var merged := MergedGroups(local, Flatten(peerRoot));
    var p := ParentsOf(merged);
    var after := AfterPeerGroups(local, peerRoot);
    MergedGroupsClosed(local, peerRoot);
    GroupsClosedParents(merged, peerRoot.id);
    BrokenIsTree(p, peerRoot.id);
    assert ParentsOf(after) == Broken(p, peerRoot.id);
    forall u | u in after && after[u].parent.Some? ensures after[u].parent.value in after {
      assert u in p;
    }
  }

  // ----- the passes over the mirror

  /** Pass 1: insert the groups only the peer holds, parents first, so that no
      parent column dangles at any step. */
  method AdoptPeerGroups(m: Mirror, flat: seq<FlatGroup>)
    requires TopDown(flat) && DistinctIds(flat) && GroupsClosed(m.groups, flat[0].node.id)
    modifies m`groups, m`mutationSeq
    ensures GroupsClosed(m.groups, flat[0].node.id)
    ensures Adopts(old(m.groups), m.groups, flat, |flat|)
    ensures m.mutationSeq >= old(m.mutationSeq)
    ensures m.mutationSeq == old(m.mutationSeq) <==> Ids(flat) <= old(m.groups).Keys
  {
    for i := 0 to |flat|
      invariant GroupsClosed(m.groups, flat[0].node.id)
      invariant Adopts(old(m.groups), m.groups, flat, i)
      invariant m.mutationSeq >= old(m.mutationSeq)
      invariant m.mutationSeq == old(m.mutationSeq) <==> Ids(flat[..i]) <= old(m.groups).Keys
    {
      var f := flat[i];
      AdoptStep(old(m.groups), m.groups, flat, i);
      AdoptCloses(old(m.groups), m.groups, flat, i);
      if f.parent.Some? && f.node.id !in m.groups {
        m.groups := m.groups[f.node.id := Adopted(f)];
        m.mutationSeq := m.mutationSeq + 1;
      }
    }
    assert flat[..|flat|] == flat;
  }

  /** The first `n` groups of the peer have been offered for adoption. */
  ghost predicate Adopts(start: map<Uuid, GroupRow>, now: map<Uuid, GroupRow>, flat: seq<FlatGroup>, n: nat)
    requires n <= |flat|
  {
    && now.Keys == start.Keys + Ids(flat[..n])
    && (forall u :: u in start ==> now[u] == start[u])
    && (forall j :: 0 <= j < n ==> flat[j].node.id in now)
    && (forall j :: 0 <= j < n && flat[j].node.id !in start ==> now[flat[j].node.id] == Adopted(flat[j]))
  }

  lemma AdoptStep(start: map<Uuid, GroupRow>, now: map<Uuid, GroupRow>, flat: seq<FlatGroup>, i: nat)
    requires TopDown(flat) && DistinctIds(flat) && i < |flat| && flat[0].node.id in start
    requires Adopts(start, now, flat, i)
    ensures Adopts(start, AdoptOne(now, flat[i]), flat, i + 1)
    ensures Ids(flat[..i + 1]) == Ids(flat[..i]) + {flat[i].node.id}
    ensures flat[i].parent.Some? && flat[i].node.id !in now <==> flat[i].node.id !in start
  {
    var f := flat[i];
    assert flat[..i + 1] == flat[..i] + [f];
    assert f.node.id !in Ids(flat[..i]);
    assert Ids(flat[..i + 1]) == Ids(flat[..i]) + {f.node.id};
    assert i > 0 ==> ParentEarlier(flat, i);
  }

  lemma AdoptCloses(start: map<Uuid, GroupRow>, now: map<Uuid, GroupRow>, flat: seq<FlatGroup>, i: nat)
    requires TopDown(flat) && DistinctIds(flat) && i < |flat|
    requires GroupsClosed(now, flat[0].node.id) && Adopts(start, now, flat, i)
    ensures GroupsClosed(AdoptOne(now, flat[i]), flat[0].node.id)
  {
    if i > 0 {
      assert ParentEarlier(flat, i);
    }
  }

  function AdoptOne(groups: map<Uuid, GroupRow>, f: FlatGroup): map<Uuid, GroupRow> {
    if f.parent.Some? && f.node.id !in groups then groups[f.node.id := Adopted(f)] else groups
  }

  /** The time a group's metadata was set, in milliseconds: an undated one at 0. */
  ghost function SetAt(node: GroupNode): int {
    if node.modified.Some? then node.modified.value else 0
  }

  /** The node's metadata was set in a later second than the row's, or in the same one
      and its texts come later. */
  ghost predicate SetLater(node: GroupNode, row: GroupRow) {
    || SetAt(node) / 1000 > row.modifiedAt / 1000
    || (SetAt(node) / 1000 == row.modifiedAt / 1000 && TextsLater(node, row))
  }

  ghost predicate TextsLater(node: GroupNode, row: GroupRow) {
    if node.name != row.name then TextBelow(row.name, node.name)
    else if node.notes != row.notes then TextBelow(row.notes, node.notes)
    else if node.icon != row.icon then row.icon < node.icon
    else node.customIcon.Some? && (row.customIcon.Some? ==> row.customIcon.value < node.customIcon.value)
  }

  lemma LaterMetadata(node: GroupNode, row: GroupRow)
    ensures CompareMetadata(NodeMetadata(node), RowMetadata(row)) == Greater <==> SetLater(node, row)
  {
    FloorMeans(SetAt(node));
    FloorMeans(row.modifiedAt);
    CompareStringsMeans(node.name, row.name);
    CompareStringsMeans(node.notes, row.notes);
    CompareStringsTotal(node.name, row.name);
    CompareStringsTotal(node.notes, row.notes);
  }

  /** The node has the group under another parent, since a later second than the row,
      or since the same one and that parent's id is the larger. */
  ghost predicate MovedLater(f: FlatGroup, row: GroupRow) {
    && f.parent.Some? && f.parent != row.parent
    && match (f.node.locationChanged, row.locationChangedAt)
       case (Some(theirs), Some(ours)) =>
         theirs / 1000 > ours / 1000 || (theirs / 1000 == ours / 1000 && (row.parent.Some? ==> f.parent.value > row.parent.value))
       case (Some(_), None) => true
       case (None, Some(_)) => false
       case (None, None) => row.parent.Some? ==> f.parent.value > row.parent.value
  }

  lemma LaterPlace(f: FlatGroup, row: GroupRow)
    ensures f.parent.Some? && f.parent != row.parent ==> (ComparePlaces(FlatPlace(f), RowPlace(row)) == Greater <==> MovedLater(f, row))
  {
    if f.node.locationChanged.Some? {
      FloorMeans(f.node.locationChanged.value);
    }
    if row.locationChangedAt.Some? {
      FloorMeans(row.locationChangedAt.value);
    }
  }

  /** Name, notes and icon: the later second wins, ties by content. */
  method ReconcileGroupMetadata(m: Mirror, node: GroupNode)
    modifies m`groups, m`mutationSeq
    ensures node.id in old(m.groups) ==>
      node.id in m.groups && m.groups[node.id] ==
        if SetLater(node, old(m.groups)[node.id])
        then old(m.groups)[node.id].(name := node.name, notes := node.notes, icon := node.icon, customIcon := node.customIcon, modifiedAt := SetAt(node))
        else old(m.groups)[node.id]
    ensures m.groups == if node.id in old(m.groups)
                        then old(m.groups)[node.id := WithMetadata(old(m.groups)[node.id], node)]
                        else old(m.groups)
    ensures m.mutationSeq >= old(m.mutationSeq)
    ensures m.mutationSeq == old(m.mutationSeq) <==> m.groups == old(m.groups)
  {
    if node.id !in m.groups {
      return;
    }
    var row := m.groups[node.id];
    LaterMetadata(node, row);
    if CompareMetadata(NodeMetadata(node), RowMetadata(row)) != Greater {
      return;
    }
    CompareMetadataTotal(NodeMetadata(node), RowMetadata(row));
    m.groups := m.groups[node.id := row.(name := node.name, notes := node.notes, icon := node.icon,
                                         customIcon := node.customIcon, modifiedAt := DtToMs(node.modified))];
    m.mutationSeq := m.mutationSeq + 1;
  }

  /** Parent: the later second wins, ties by parent id, applied even where it
      closes a cycle. */
  method ReconcileGroupLocation(m: Mirror, f: FlatGroup)
    modifies m`groups, m`mutationSeq
    ensures f.node.id in old(m.groups) ==>
      f.node.id in m.groups && m.groups[f.node.id] ==
        if MovedLater(f, old(m.groups)[f.node.id])
        then old(m.groups)[f.node.id].(parent := f.parent, locationChangedAt := FloorOption(f.node.locationChanged))
        else old(m.groups)[f.node.id]
    ensures m.groups == if f.node.id in old(m.groups)
                        then old(m.groups)[f.node.id := WithPlace(old(m.groups)[f.node.id], f)]
                        else old(m.groups)
    ensures m.mutationSeq >= old(m.mutationSeq)
    ensures m.mutationSeq == old(m.mutationSeq) <==> m.groups == old(m.groups)
  {
    if f.node.id !in m.groups || f.parent == None {
      return;
    }
    var row := m.groups[f.node.id];
    LaterPlace(f, row);
    if ComparePlaces(FlatPlace(f), RowPlace(row)) != Greater {
      return;
    }
    if row.parent == f.parent {
      return;
    }
    m.groups := m.groups[f.node.id := row.(parent := f.parent,
                                           locationChangedAt := FloorOption(f.node.locationChanged))];
    m.mutationSeq := m.mutationSeq + 1;
  }

  /** Both rules for one group. */
  method ReconcileGroup(m: Mirror, f: FlatGroup)
    requires f.node.id in m.groups
    modifies m`groups, m`mutationSeq
    ensures m.groups == old(m.groups)[f.node.id := Merged(old(m.groups)[f.node.id], f)]
    ensures m.mutationSeq >= old(m.mutationSeq)
    ensures m.mutationSeq == old(m.mutationSeq) <==>
              Merged(old(m.groups)[f.node.id], f) == old(m.groups)[f.node.id]
  {
    MergedChangesOnce(m.groups[f.node.id], f);
    ReconcileGroupMetadata(m, f.node);
    ReconcileGroupLocation(m, f);
  }

  /** Pass 2: every group of the peer. */
  method ReconcileGroupRows(m: Mirror, flat: seq<FlatGroup>)
    requires DistinctIds(flat) && Ids(flat) <= m.groups.Keys
    modifies m`groups, m`mutationSeq
    ensures Reconciles(old(m.groups), m.groups, flat, |flat|)
    ensures m.mutationSeq >= old(m.mutationSeq)
    ensures m.mutationSeq == old(m.mutationSeq) <==> Settled(old(m.groups), flat, |flat|)
  {
    forall i | 0 <= i < |flat| ensures flat[i].node.id in Ids(flat) {
      FindAt(flat, i);
    }
    for i := 0 to |flat|
      invariant Reconciles(old(m.groups), m.groups, flat, i)
      invariant m.mutationSeq >= old(m.mutationSeq)
      invariant m.mutationSeq == old(m.mutationSeq) <==> Settled(old(m.groups), flat, i)
    {
      ReconcileStep(old(m.groups), m.groups, flat, i);
      ReconcileGroup(m, flat[i]);
    }
  }

  lemma ReconcileStep(start: map<Uuid, GroupRow>, now: map<Uuid, GroupRow>, flat: seq<FlatGroup>, i: nat)
    requires DistinctIds(flat) && i < |flat| && Reconciles(start, now, flat, i)
    ensures flat[i].node.id in now && now[flat[i].node.id] == start[flat[i].node.id]
    ensures Reconciles(start, now[flat[i].node.id := Merged(now[flat[i].node.id], flat[i])], flat, i + 1)
  {
    FindAt(flat, i);
    var f := flat[i];
    forall j | 0 <= j < |flat| && j != i ensures flat[j].node.id != f.node.id {
    }
  }

  /** The first `n` groups of the peer have been merged in. */
  ghost predicate Reconciles(start: map<Uuid, GroupRow>, now: map<Uuid, GroupRow>, flat: seq<FlatGroup>, n: nat)
    requires n <= |flat|
  {
    && now.Keys == start.Keys
    && (forall i :: 0 <= i < |flat| ==> flat[i].node.id in start)
    && (forall i :: 0 <= i < n ==> now[flat[i].node.id] == Merged(start[flat[i].node.id], flat[i]))
    && (forall i :: n <= i < |flat| ==> now[flat[i].node.id] == start[flat[i].node.id])
    && (forall u :: u in now && u !in Ids(flat) ==> now[u] == start[u])
  }

  /** None of the first `n` groups of the peer wins anything. */
  ghost predicate Settled(start: map<Uuid, GroupRow>, flat: seq<FlatGroup>, n: nat)
    requires n <= |flat|
  {
    forall i :: 0 <= i < n ==>
      flat[i].node.id in start && Merged(start[flat[i].node.id], flat[i]) == start[flat[i].node.id]
  }

  /** The two rules touch different columns, so neither undoes the other. */
  lemma MergedChangesOnce(row: GroupRow, f: FlatGroup)
    ensures Merged(row, f) == row <==>
              WithMetadata(row, f.node) == row && WithPlace(WithMetadata(row, f.node), f) == WithMetadata(row, f.node)
  {
  }

  /** The group half of a peer pass. It writes nothing exactly when no group of
      the peer wins anything and the tree has no cycle. */
  method ReconcilePeerGroups(m: Mirror, peerRoot: GroupNode)
    requires GroupsClosed(m.groups, peerRoot.id) && DistinctIds(Flatten(peerRoot))
    modifies m`groups, m`mutationSeq
    ensures m.groups == AfterPeerGroups(old(m.groups), peerRoot)
    ensures GroupTree(m.groups, peerRoot.id)
    ensures m.mutationSeq >= old(m.mutationSeq)
    ensures m.mutationSeq == old(m.mutationSeq) <==>
              Settled(old(m.groups), Flatten(peerRoot), |Flatten(peerRoot)|) && Acyclic(ParentsOf(old(m.groups)))
  {
    var flat := Flatten(peerRoot);
    FlattenTopDown(peerRoot);
    AdoptPeerGroups(m, flat);
    ghost var adopted := m.groups;
    assert flat[..|flat|] == flat;
    ReconcileGroupRows(m, flat);
    PassesMerge(old(m.groups), adopted, m.groups, flat);
    SettledPasses(old(m.groups), adopted, flat);
    if Settled(old(m.groups), flat, |flat|) {
      SettledIsMerged(old(m.groups), flat);
    }
    MergedGroupsClosed(old(m.groups), peerRoot);
    BreakGroupCycles(m, peerRoot.id);
    AfterPeerGroupsIsTree(old(m.groups), peerRoot);
  }

  lemma PassesMerge(start: map<Uuid, GroupRow>, adopted: map<Uuid, GroupRow>, now: map<Uuid, GroupRow>, flat: seq<FlatGroup>)
    requires DistinctIds(flat)
    requires Adopts(start, adopted, flat, |flat|) && Reconciles(adopted, now, flat, |flat|)
    ensures now == MergedGroups(start, flat)
  {
    var merged := MergedGroups(start, flat);
    assert flat[..|flat|] == flat;
    assert now.Keys == merged.Keys;
    forall u | u in merged ensures now[u] == merged[u] {
      if u in Ids(flat) {
        var i :| 0 <= i < |flat| && flat[i] == Find(flat, u);
        AdoptedAgrees(flat[i]);
      }
    }
  }

  /** Nothing is adopted and nothing wins: the table is already the merged one. */
  lemma SettledPasses(start: map<Uuid, GroupRow>, adopted: map<Uuid, GroupRow>, flat: seq<FlatGroup>)
    requires DistinctIds(flat) && Adopts(start, adopted, flat, |flat|)
    ensures Ids(flat) <= start.Keys && Settled(adopted, flat, |flat|) <==> Settled(start, flat, |flat|)
  {
    forall i | 0 <= i < |flat| ensures flat[i].node.id in Ids(flat) {
      FindAt(flat, i);
    }
  }

  lemma SettledIsMerged(start: map<Uuid, GroupRow>, flat: seq<FlatGroup>)
    requires DistinctIds(flat) && Settled(start, flat, |flat|)
    ensures MergedGroups(start, flat) == start
  {
    var merged := MergedGroups(start, flat);
    forall u | u in merged ensures u in start && merged[u] == start[u] {
      if u in Ids(flat) {
        var i :| 0 <= i < |flat| && flat[i] == Find(flat, u);
      }
    }
    assert merged.Keys == start.Keys;
  }

  // ----- convergence

  /** `root` is a snapshot of the table, stamps to the second. */
  ghost predicate Snapshot(groups: map<Uuid, GroupRow>, root: GroupNode) {
    var flat := Flatten(root);
    && DistinctIds(flat)
    && groups.Keys == Ids(flat)
    && forall i :: 0 <= i < |flat| ==> SameGroup(groups[flat[i].node.id], flat[i])
  }

  ghost predicate SameGroup(row: GroupRow, f: FlatGroup) {
    RowMetadata(row) == NodeMetadata(f.node) && RowPlace(row) == FlatPlace(f)
  }

  lemma SnapshotFind(groups: map<Uuid, GroupRow>, root: GroupNode, u: Uuid)
    requires Snapshot(groups, root) && u in groups
    ensures u in Ids(Flatten(root)) && SameGroup(groups[u], Find(Flatten(root), u))
  {
    var flat := Flatten(root);
    var i :| 0 <= i < |flat| && flat[i] == Find(flat, u);
  }

  lemma SnapshotCloses(groups: map<Uuid, GroupRow>, root: GroupNode)
    requires Snapshot(groups, root)
    ensures GroupsClosed(groups, root.id)
  {
    var flat := Flatten(root);
    FlattenTopDown(root);
    FindAt(flat, 0);
    forall u | u in groups
      ensures groups[u].parent == None <==> u == root.id
      ensures groups[u].parent.Some? ==> groups[u].parent.value in groups
    {
      SnapshotFind(groups, root, u);
      var i :| 0 <= i < |flat| && flat[i] == Find(flat, u);
      if i > 0 {
        assert ParentEarlier(flat, i);
        var j :| 0 <= j < i && flat[j].node.id == flat[i].parent.value;
        FindAt(flat, j);
      }
    }
  }

  /** A table that has a snapshot is one finite tree. */
  lemma SnapshotIsTree(groups: map<Uuid, GroupRow>, root: GroupNode)
    requires Snapshot(groups, root)
    ensures GroupTree(groups, root.id)
  {
    SnapshotCloses(groups, root);
    GroupsClosedParents(groups, root.id);
    forall u | u in ParentsOf(groups) ensures ReachesRoot(ParentsOf(groups), root.id, u) {
      SnapshotReaches(groups, root, u);
    }
  }

  lemma SnapshotReaches(groups: map<Uuid, GroupRow>, root: GroupNode, u: Uuid)
    requires Snapshot(groups, root) && u in groups
    ensures ReachesRoot(ParentsOf(groups), root.id, u)
  {
    var flat := Flatten(root);
    SnapshotFind(groups, root, u);
    var i :| 0 <= i < |flat| && flat[i] == Find(flat, u);
    FlatReaches(groups, root, i);
  }

  lemma {:induction false} FlatReaches(groups: map<Uuid, GroupRow>, root: GroupNode, i: nat)
    requires Snapshot(groups, root) && i < |Flatten(root)|
    ensures ReachesRoot(ParentsOf(groups), root.id, Flatten(root)[i].node.id)
  {
    var flat := Flatten(root);
    var p := ParentsOf(groups);
    var u := flat[i].node.id;
    FlattenTopDown(root);
    FindAt(flat, i);
    if i == 0 {
      assert Ancestor(p, u, 0) == Some(root.id);
    } else {
      assert ParentEarlier(flat, i);
      var j :| 0 <= j < i && flat[j].node.id == flat[i].parent.value;
      FlatReaches(groups, root, j);
      var n: nat :| Ancestor(p, flat[j].node.id, n) == Some(root.id);
      assert Ancestor(p, u, n + 1) == Some(root.id);
    }
  }

  /** What two replicas must agree on for a group. */
  ghost predicate Agree(a: GroupRow, b: GroupRow) {
    a.parent == b.parent && RowMetadata(a) == RowMetadata(b)
  }

  /** Each side merging the other's copy of a group lands on the same parent,
      name, notes and icon. */
  lemma MergeIsSymmetric(a: GroupRow, b: GroupRow, fa: FlatGroup, fb: FlatGroup)
    requires SameGroup(a, fa) && SameGroup(b, fb)
    requires a.parent == None <==> b.parent == None
    ensures Agree(Merged(a, fb), Merged(b, fa))
  {
    CompareMetadataTotal(RowMetadata(a), RowMetadata(b));
  }

  lemma MergedGroupsAgree(ga: map<Uuid, GroupRow>, gb: map<Uuid, GroupRow>, ta: GroupNode, tb: GroupNode)
    requires Snapshot(ga, ta) && Snapshot(gb, tb) && ta.id == tb.id
    ensures MergedGroups(ga, Flatten(tb)).Keys == MergedGroups(gb, Flatten(ta)).Keys
    ensures forall u :: u in MergedGroups(ga, Flatten(tb)) ==>
                          Agree(MergedGroups(ga, Flatten(tb))[u], MergedGroups(gb, Flatten(ta))[u])
  {
    SnapshotIsTree(ga, ta);
    SnapshotIsTree(gb, tb);
    var a, b := MergedGroups(ga, Flatten(tb)), MergedGroups(gb, Flatten(ta));
    forall u | u in a ensures Agree(a[u], b[u]) {
      if u in ga {
        SnapshotFind(ga, ta, u);
      }
      if u in gb {
        SnapshotFind(gb, tb, u);
      }
      if u in ga && u in gb {
        MergeIsSymmetric(ga[u], gb[u], Find(Flatten(ta), u), Find(Flatten(tb), u));
      }
    }
  }

  /** Two replicas of one vault that each fold in the other's tree from before
      the exchange end with the same groups, each under the same parent with the
      same name, notes and icon, in one finite tree, whatever cycles the
      winning moves close. */
  lemma ExchangeConverges(ga: map<Uuid, GroupRow>, gb: map<Uuid, GroupRow>, ta: GroupNode, tb: GroupNode)
    requires Snapshot(ga, ta) && Snapshot(gb, tb) && ta.id == tb.id
    ensures AfterPeerGroups(ga, tb).Keys == AfterPeerGroups(gb, ta).Keys == ga.Keys + gb.Keys
    ensures forall u :: u in AfterPeerGroups(ga, tb) ==>
                          Agree(AfterPeerGroups(ga, tb)[u], AfterPeerGroups(gb, ta)[u])
    ensures GroupTree(AfterPeerGroups(ga, tb), ta.id) && GroupTree(AfterPeerGroups(gb, ta), ta.id)
  {
    SnapshotIsTree(ga, ta);
    SnapshotIsTree(gb, tb);
    AfterPeerGroupsIsTree(ga, tb);
    AfterPeerGroupsIsTree(gb, ta);
    MergedGroupsAgree(ga, gb, ta, tb);
    AgreeingBreaks(MergedGroups(ga, Flatten(tb)), MergedGroups(gb, Flatten(ta)), ta.id);
  }

  /** Tables that agree still agree after their cycles are broken. */
  lemma AgreeingBreaks(a: map<Uuid, GroupRow>, b: map<Uuid, GroupRow>, root: Uuid)
    requires a.Keys == b.Keys && forall u :: u in a ==> Agree(a[u], b[u])
    ensures var a', b' := WithParents(a, Broken(ParentsOf(a), root)), WithParents(b, Broken(ParentsOf(b), root));
            a'.Keys == b'.Keys && forall u :: u in a' ==> Agree(a'[u], b'[u])
  {
    assert ParentsOf(a) == ParentsOf(b);
  }

  /** Move stamps are not part of the agreement: on a group both sides hold they
      come out equal exactly when the sides disagreed on its parent or already
      agreed on its stamp. */
  lemma MoveStampsAgree(a: GroupRow, b: GroupRow, fa: FlatGroup, fb: FlatGroup)
    requires SameGroup(a, fa) && SameGroup(b, fb)
    requires a.parent.Some? && b.parent.Some?
    ensures RowPlace(Merged(a, fb)).stamp == RowPlace(Merged(b, fa)).stamp <==>
              a.parent != b.parent || RowPlace(a).stamp == RowPlace(b).stamp
  {
    FloorIdempotent(a.locationChangedAt);
    FloorIdempotent(b.locationChangedAt);
    FloorIdempotent(fa.node.locationChanged);
    FloorIdempotent(fb.node.locationChanged);
  }
}
