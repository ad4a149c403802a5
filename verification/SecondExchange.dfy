/** What a second exchange finds to do once two replicas have converged. */
module SecondExchange {
  import opened Order
  import opened GroupGraph
  import opened Store
  import opened EntryRules
  import opened BinWalk
  import opened GroupCycles
  import opened GroupSync
  import opened GroupTombstones
  import opened EntrySync
  import opened PeerEntries
  import opened PeerPass
  import opened PassSoundness
  import opened Exchange
  import opened Projection
  import opened PassRuns

  /** The merge library has nothing more to say about these two copies: they are in
      sync, or in a conflict that is not adopted, and neither history learns from
      the other. */
  predicate EntrySettled(rules: Rules, local: Entry, peer: Entry) {
    match rules.brain.classify(local, peer)
    case InSync => FoldedHistory(rules.brain, FoldFrom(local, peer), local, peer).None?
    case AutoMerged(_, _) => false
    case Conflict => DecideFor(rules, local, peer) != AdoptPeer && FoldedHistory(rules.brain, Held, local, peer).None?
  }

  ghost predicate AllSettled(pass: Pass) {
    forall u {:trigger pass.local[u]} :: u in pass.local && u in pass.peer ==>
      EntrySettled(pass.rules, pass.local[u].entry, pass.peer[u].entry)
  }

  /** Copies at one location write exactly if their contents are unsettled. */
  lemma SettledWrites(rules: Rules, groups: map<Uuid, GroupRow>, row: EntryRow, local: Entry, peer: Placed)
    requires RowLocation(row) == LocationOf(peer.entry, peer.group)
    ensures SharedWrites(rules, groups, row, local, peer) <==> !EntrySettled(rules, local, peer.entry)
    ensures EntrySettled(rules, local, peer.entry) ==> SharedRow(rules, groups, row, local, peer) == row
  {
    var outcome := ApplyVerdict(rules, row, local, peer.entry);
    if !outcome.written {
      assert outcome.row == row && WithLocation(groups, row, peer) == row;
    }
  }

  /** Two replicas that agree. */
  ghost predicate Meeting(r: Replicas) {
    Ready(r) && Converged(r.ta, r.tb) && r.ta.groups.Keys !! r.ta.tombstones.Keys
  }

  /** The groups of two replicas that agree have nothing to tell each other, even
      where their location stamps differ. */
  lemma AgreedGroupsAreQuiet(r: Replicas)
    requires Meeting(r)
    ensures QuietGroups(r.ta.groups, Handed(r.vb))
  {
    var flat := Flatten(r.vb.root);
    SnapshotIsTree(r.ta.groups, r.va.root);
    GroupsClosedParents(r.ta.groups, r.va.root.id);
    AcyclicIsTree(ParentsOf(r.ta.groups), r.va.root.id);
    forall i | 0 <= i < |flat|
      ensures flat[i].node.id in r.ta.groups && Merged(r.ta.groups[flat[i].node.id], flat[i]) == r.ta.groups[flat[i].node.id]
    {
      FindAt(flat, i);
      AgreedGroupStays(r.ta.groups[flat[i].node.id], r.tb.groups[flat[i].node.id], flat[i]);
    }
  }

  lemma AgreedGroupStays(a: GroupRow, b: GroupRow, f: FlatGroup)
    requires Agree(a, b) && SameGroup(b, f)
    ensures Merged(a, f) == a
  {
    CompareMetadataTotal(NodeMetadata(f.node), RowMetadata(a));
  }

  /** Joining with the other side's times to the second changes nothing exactly if
      all times here are whole seconds. */
  lemma AgreedTombstones(a: map<Uuid, Option<int>>, b: map<Uuid, Option<int>>, live: set<Uuid>)
    requires FloorTimes(a) == FloorTimes(b) && live !! a.Keys
    ensures UnionTombstones(a, FloorTimes(b), live) == FloorTimes(a)
    ensures FloorTimes(a) == a <==> AllWhole(a)
  {
    OwnTombstones(a, live);
  }

  /** Both sides have the same entries at the same locations. */
  ghost predicate SamePlaces(pass: Pass, entries: map<Uuid, EntryRow>) {
    && entries.Keys == pass.local.Keys == pass.peer.Keys
    && forall u {:trigger entries[u]} :: u in entries ==> RowLocation(entries[u]) == LocationIn(pass.peer[u])
  }

  /** A walk over entries at the same locations. */
  lemma AgreedWalk(pass: Pass, groups: map<Uuid, GroupRow>, entries: map<Uuid, EntryRow>)
    requires SamePlaces(pass, entries)
    ensures QuietWalk(pass, groups, entries) <==> AllSettled(pass)
    ensures AllSettled(pass) ==> WalkedRows(pass, groups, entries) == entries
  {
    forall u | u in entries
      ensures SharedWrites(pass.rules, groups, entries[u], pass.local[u].entry, pass.peer[u]) <==>
                !EntrySettled(pass.rules, pass.local[u].entry, pass.peer[u].entry)
      ensures EntrySettled(pass.rules, pass.local[u].entry, pass.peer[u].entry) ==> WalkedRow(pass, groups, entries, u) == entries[u]
    {
      SettledWrites(pass.rules, groups, entries[u], pass.local[u].entry, pass.peer[u]);
    }
    if AllSettled(pass) {
      RowsUnchanged(pass, groups, entries);
    }
  }

  lemma MeetingPlaces(r: Replicas, brain: Brain, owner: string, latest: int)
    requires Meeting(r)
    ensures SamePlaces(PassOf(r, brain, owner, latest), r.ta.entries)
  {
    var pass := PassOf(r, brain, owner, latest);
    assert pass.peer == Index(CollectEntries(r.vb.root));
    forall u | u in r.ta.entries ensures RowLocation(r.ta.entries[u]) == LocationIn(pass.peer[u]) {
      assert Stands(r.tb.entries[u], pass.peer[u]) && RowLocation(r.ta.entries[u]) == RowLocation(r.tb.entries[u]);
    }
  }

  /** The entries and tombstones of a replica that agrees. */
  lemma AgreedEntries(pass: Pass, groups: map<Uuid, GroupRow>, entries: map<Uuid, EntryRow>, tombstones: map<Uuid, Option<int>>,
                      theirs: map<Uuid, Option<int>>)
    requires SamePlaces(pass, entries) && entries.Keys !! tombstones.Keys
    requires pass.peerTomb == FloorTimes(theirs) && FloorTimes(tombstones) == FloorTimes(theirs)
    ensures QuietEntries(pass, groups, entries, tombstones) <==> AllSettled(pass) && AllWhole(tombstones)
    ensures TombstonesAfter(pass, groups, entries, tombstones) == FloorTimes(tombstones)
    ensures AllSettled(pass) ==> EntriesAfter(pass, groups, entries) == entries
  {
    AgreedWalk(pass, groups, entries);
    NothingAdded(pass, tombstones);
    AllStayLive(pass, groups, entries);
    AgreedTombstones(tombstones, theirs, entries.Keys);
    if AllSettled(pass) {
      EntriesStay(pass, groups, entries);
    }
  }

  lemma AllStayLive(pass: Pass, groups: map<Uuid, GroupRow>, entries: map<Uuid, EntryRow>)
    requires entries.Keys == pass.local.Keys == pass.peer.Keys
    ensures EntriesAfter(pass, groups, entries).Keys == entries.Keys
  {
    forall u ensures u in EntriesAfter(pass, groups, entries) <==> u in entries {
      EntriesAfterAt(pass, groups, entries, u);
    }
  }

  /** A pass over the vault of a replica that agrees writes nothing but for the
      settings, if and only if the deletion times here are whole seconds, the icons
      are held, and the contents are settled. With settled contents it leaves all as
      it was but for floored deletion times. */
  lemma AgreedPassIsQuiet(r: Replicas, brain: Brain, owner: string, latest: int)
    requires Meeting(r)
    ensures var pass := PassOf(r, brain, owner, latest);
            && (QuietObjects(pass, r.ta, Handed(r.vb)) <==>
                  AllWhole(r.ta.tombstones) && r.tb.icons.Keys <= r.ta.icons.Keys && AllSettled(pass))
            && (AllSettled(pass) ==>
                  var after := After(r, brain, owner, latest);
                  && after.entries == r.ta.entries && after.tombstones == FloorTimes(r.ta.tombstones)
                  && (brain.mergeMeta(r.va.meta, Handed(r.vb).meta) == r.va.meta ==> after.groups == r.ta.groups && after.settings == r.ta.settings))
  {
    var pass := PassOf(r, brain, owner, latest);
    AgreedGroupsAreQuiet(r);
    QuietGroupsStay(r.ta.groups, Handed(r.vb));
    MeetingPlaces(r, brain, owner, latest);
    FlooredMap(r.vb.deletedObjects);
    AgreedEntries(pass, r.ta.groups, r.ta.entries, r.ta.tombstones, r.tb.tombstones);
    QuietWhenUnmoved(pass, r.ta, Handed(r.vb));
    if AllSettled(pass) {
      UnmovedPass(r.ta, r.va, Handed(r.vb), brain, owner, latest);
    }
  }

  // ----- two exchanges

  /** The replicas after an exchange, each projected anew. */
  ghost function Again(r: Replicas, brains: (Brain, Brain), owners: (string, string), latest: int, resolutions: (seq<Resolution>, seq<Resolution>)): Replicas
    requires Ready(r) && Survives(r, brains, owners, latest)
  {
    var a, b := After(r, brains.0, owners.0, latest), After(Swap(r), brains.1, owners.1, latest);
    Replicas(a, Project(a, r.va.root.id, resolutions.0), b, Project(b, r.va.root.id, resolutions.1))
  }

  /** Neither side ends with nothing. */
  ghost predicate Survives(r: Replicas, brains: (Brain, Brain), owners: (string, string), latest: int)
    requires Ready(r)
  {
    && Projectable(After(r, brains.0, owners.0, latest), r.va.root.id)
    && Projectable(After(Swap(r), brains.1, owners.1, latest), r.va.root.id)
  }

  /** With rows keyed by their entries, the replicas survive an exchange unless
      someone deleted the root. */
  lemma ExchangeSurvives(r: Replicas, brains: (Brain, Brain), owners: (string, string), latest: int)
    requires Ready(r) && Keyed(r.ta.entries) && Keyed(r.tb.entries) && KeepsPlacement(brains.0) && KeepsPlacement(brains.1)
    requires r.va.root.id !in r.ta.tombstones && r.va.root.id !in r.tb.tombstones
    ensures Survives(r, brains, owners, latest)
  {
    SideSurvives(r, brains.0, owners.0, latest);
    SideSurvives(Swap(r), brains.1, owners.1, latest);
  }

  lemma SideSurvives(r: Replicas, brain: Brain, owner: string, latest: int)
    requires Ready(r) && Keyed(r.ta.entries) && KeepsPlacement(brain)
    requires r.va.root.id !in r.ta.tombstones && r.va.root.id !in r.tb.tombstones
    ensures Projectable(After(r, brain, owner, latest), r.va.root.id)
  {
    FlooredMap(r.vb.deletedObjects);
    PassKeepsSound(r.ta, r.va, Handed(r.vb), brain, owner, latest);
    KeyedStays(r.ta, r.va, Handed(r.vb), brain, owner, latest);
    MergedTreesAgree(r);
    assert r.va.root.id in MergedTree(r.ta, Handed(r.vb));
  }

  lemma ProjectedMeet(a: Tables, b: Tables, root: Uuid, resolutions: (seq<Resolution>, seq<Resolution>))
    requires Projectable(a, root) && Projectable(b, root) && Converged(a, b)
    ensures Meeting(Replicas(a, Project(a, root, resolutions.0), b, Project(b, root, resolutions.1)))
  {
    ProjectionExists(a, root, resolutions.0);
    ProjectionExists(b, root, resolutions.1);
  }

  lemma IconsMeet(r: Replicas, brains: (Brain, Brain), owners: (string, string), latest: int)
    requires Ready(r)
    ensures After(r, brains.0, owners.0, latest).icons.Keys == After(Swap(r), brains.1, owners.1, latest).icons.Keys
  {
    assert r.ta.icons == r.va.icons && r.tb.icons == r.vb.icons;
  }

  /** After an exchange the replicas are ready for the next and agree; each already
      holds the other's icons. In the next exchange a side writes nothing, settings
      apart, if and only if the deletion times it holds are whole seconds and the
      merge library has nothing more to say about the contents. */
  lemma SecondExchangeIsQuiet(r: Replicas, brains: (Brain, Brain), owners: (string, string), latest: int,
                              resolutions: (seq<Resolution>, seq<Resolution>), brain: Brain, owner: string)
    requires Ready(r) && Survives(r, brains, owners, latest)
    requires KeepsPlacement(brains.0) && KeepsPlacement(brains.1) && LocationsMeet(r, brains.0, brains.1, latest)
    ensures var next := Again(r, brains, owners, latest, resolutions);
            var pass := PassOf(next, brain, owner, latest);
            && Meeting(next) && next.ta.icons.Keys == next.tb.icons.Keys
            && (QuietObjects(pass, next.ta, Handed(next.vb)) <==> AllWhole(next.ta.tombstones) && AllSettled(pass))
  {
    var next := Again(r, brains, owners, latest, resolutions);
    Exchange.ExchangeConverges(r, brains.0, brains.1, owners, latest);
    ProjectedMeet(next.ta, next.tb, r.va.root.id, resolutions);
    IconsMeet(r, brains, owners, latest);
    AgreedPassIsQuiet(next, brain, owner, latest);
  }
}
