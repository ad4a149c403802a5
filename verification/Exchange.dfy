/** What two replicas that exchange vaults agree on. */
module Exchange {
  import opened Order
  import opened GroupGraph
  import opened Store
  import opened EntryRules
  import opened BinWalk
  import opened GroupSync
  import opened GroupCycles
  import opened GroupTombstones
  import opened EntrySync
  import opened PeerEntries
  import opened PeerPass
  import opened PassSoundness

  // ----- where an entry both sides hold ends up

  predicate Adopts(rules: Rules, local: Entry, peer: Entry) {
    rules.brain.classify(local, peer).Conflict? && DecideFor(rules, local, peer) == AdoptPeer
  }

  /** An adopted entry takes the peer's stamp and previous parent into local's
      group before the locations are compared. */
  function LandsAt(ours: Location, theirs: Location, adopts: bool): Location {
    Later(if adopts then Location(theirs.stamp, ours.group, theirs.previous) else ours, theirs)
  }

  lemma SharedLocation(rules: Rules, groups: map<Uuid, GroupRow>, row: EntryRow, local: Entry, peer: Placed)
    requires KeepsPlacement(rules.brain) && peer.group in groups
    requires RowLocation(row) == LocationOf(local, row.group)
    ensures RowLocation(SharedRow(rules, groups, row, local, peer)) ==
            LandsAt(RowLocation(row), LocationOf(peer.entry, peer.group), Adopts(rules, local, peer.entry))
  {
    var outcome := ApplyVerdict(rules, row, local, peer.entry);
    VerdictLocation(rules, row, local, peer.entry);
    FloorIdempotent(peer.entry.locationChanged);
    var placed := WithLocation(groups, outcome.row, peer);
    assert RowLocation(placed) == Later(RowLocation(outcome.row), LocationOf(peer.entry, peer.group));
    assert RowLocation(WithHistory(placed, FoldedHistory(rules.brain, outcome.base, local, peer.entry))) == RowLocation(placed);
  }

  lemma VerdictLocation(rules: Rules, row: EntryRow, local: Entry, peer: Entry)
    requires KeepsPlacement(rules.brain) && RowLocation(row) == LocationOf(local, row.group)
    ensures RowLocation(ApplyVerdict(rules, row, local, peer).row) ==
            if Adopts(rules, local, peer) then LocationOf(peer, row.group) else RowLocation(row)
  {
  }

  /** When the side that adopts and the side that keeps its value land on the same
      location: the resolver's location is the later one and its group the larger,
      or the adopter's is later by its group alone. */
  predicate AdoptedMeets(adopter: Location, resolver: Location) {
    || (CompareLocations(resolver, adopter) != Less && resolver.group >= adopter.group)
    || (CompareLocations(adopter, resolver) == Greater && adopter.stamp == resolver.stamp
        && adopter.previous == resolver.previous)
  }

  predicate Meets(a: Location, b: Location, adoptsA: bool, adoptsB: bool) {
    (adoptsA ==> AdoptedMeets(a, b)) && (adoptsB ==> AdoptedMeets(b, a))
  }

  /** Without adoption the two sides always land on the same location; with it,
      exactly when `AdoptedMeets`. */
  lemma LandingsMeet(a: Location, b: Location, adoptsA: bool, adoptsB: bool)
    requires !(adoptsA && adoptsB)
    ensures LandsAt(a, b, adoptsA) == LandsAt(b, a, adoptsB) <==> Meets(a, b, adoptsA, adoptsB)
  {
  }

  /** The row after copies from several peers have been offered one by one. */
  ghost function FoldCopies(groups: map<Uuid, GroupRow>, row: EntryRow, copies: seq<Placed>): EntryRow
    decreases copies
  {
    if copies == [] then row else FoldCopies(groups, WithLocation(groups, row, copies[0]), copies[1..])
  }

  function LocationIn(p: Placed): Location {
    LocationOf(p.entry, p.group)
  }

  /** `end` is the latest of the start and all copies, and one of them. */
  ghost predicate IsLatest(end: Location, start: Location, copies: seq<Placed>) {
    && (end == start || exists c :: c in copies && LocationIn(c) == end)
    && CompareLocations(start, end) != Greater
    && (forall c :: c in copies ==> CompareLocations(LocationIn(c), end) != Greater)
  }

  lemma LatestIsUnique(a: Location, b: Location, start: Location, copies: seq<Placed>, others: seq<Placed>)
    requires IsLatest(a, start, copies) && IsLatest(b, start, others)
    requires forall c :: c in copies <==> c in others
    ensures a == b
  {
    assert CompareLocations(a, b) != Greater && CompareLocations(b, a) != Greater;
  }

  /** Location is a join: folding in any sequence of copies leaves the latest of
      them all. */
  lemma {:induction false} FoldIsMaximum(groups: map<Uuid, GroupRow>, row: EntryRow, copies: seq<Placed>)
    requires forall c :: c in copies ==> c.group in groups
    ensures IsLatest(RowLocation(FoldCopies(groups, row, copies)), RowLocation(row), copies)
    decreases copies
  {
    if copies != [] {
      var next := WithLocation(groups, row, copies[0]);
      FloorIdempotent(copies[0].entry.locationChanged);
      assert RowLocation(next) == Later(RowLocation(row), LocationIn(copies[0]));
      FoldIsMaximum(groups, next, copies[1..]);
      var end := RowLocation(FoldCopies(groups, row, copies));
      if end == RowLocation(next) && end != RowLocation(row) {
        assert copies[0] in copies && LocationIn(copies[0]) == end;
      }
    }
  }

  /** So neither the order of the copies nor their repetition matters. */
  lemma FoldIgnoresOrder(groups: map<Uuid, GroupRow>, row: EntryRow, copies: seq<Placed>, others: seq<Placed>)
    requires forall c :: c in copies ==> c.group in groups
    requires forall c :: c in copies <==> c in others
    ensures RowLocation(FoldCopies(groups, row, copies)) == RowLocation(FoldCopies(groups, row, others))
  {
    FoldIsMaximum(groups, row, copies);
    FoldIsMaximum(groups, row, others);
    LatestIsUnique(RowLocation(FoldCopies(groups, row, copies)), RowLocation(FoldCopies(groups, row, others)),
                   RowLocation(row), copies, others);
  }

  // ----- one exchange

  /** Two replicas of one vault, each with the vault it projects to. What the other
      side gets to see of that is `Handed`. */
  datatype Replicas = Replicas(ta: Tables, va: Vault, tb: Tables, vb: Vault)

  ghost predicate Ready(r: Replicas) {
    && Represents(r.ta, r.va) && Represents(r.tb, r.vb) && r.va.root.id == r.vb.root.id
    && NoOwnTombstone(r.ta) && NoOwnTombstone(r.tb)
    && WholeEdits(r.va) && WholeEdits(r.vb)
  }

  function Swap(r: Replicas): Replicas {
    Replicas(r.tb, r.vb, r.ta, r.va)
  }

  /** The pass of the first replica over the vault of the second. */
  function PassOf(r: Replicas, brain: Brain, owner: string, latest: int): Pass {
    StartPass(brain, owner, latest, r.va, Handed(r.vb))
  }

  ghost function After(r: Replicas, brain: Brain, owner: string, latest: int): Tables {
    PeerPass.PeerPass(brain, owner, latest, r.ta, r.va, Handed(r.vb))
  }

  lemma MergedTreesAgree(r: Replicas)
    requires Ready(r)
    ensures var a, b := AfterPeerGroups(r.ta.groups, r.vb.root), AfterPeerGroups(r.tb.groups, r.va.root);
            && a.Keys == b.Keys == r.ta.groups.Keys + r.tb.groups.Keys
            && (forall u :: u in a ==> Agree(a[u], b[u]))
            && GroupTree(a, r.va.root.id) && GroupTree(b, r.va.root.id)
  {
    GroupSync.ExchangeConverges(r.ta.groups, r.tb.groups, r.va.root, r.vb.root);
  }

  /** Edit versus delete, seen from one side: what survives here. */
  lemma LiveAfter(r: Replicas, brain: Brain, owner: string, latest: int, u: Uuid)
    requires Ready(r)
    ensures u in After(r, brain, owner, latest).entries <==>
              var pass := PassOf(r, brain, owner, latest);
              (u in pass.local && !Dropped(pass, u)) || Added(pass, u)
  {
    EntriesAfterAt(PassOf(r, brain, owner, latest), AfterPeerGroups(r.ta.groups, r.vb.root), r.ta.entries, u);
  }

  /** Both replicas keep the same entries alive. */
  lemma LiveEntriesAgree(r: Replicas, brainA: Brain, brainB: Brain, owners: (string, string), latest: int)
    requires Ready(r)
    ensures After(r, brainA, owners.0, latest).entries.Keys == After(Swap(r), brainB, owners.1, latest).entries.Keys
  {
    forall u
      ensures u in After(r, brainA, owners.0, latest).entries <==> u in After(Swap(r), brainB, owners.1, latest).entries
    {
      LiveAlike(r, brainA, brainB, owners, latest, u);
    }
  }

  lemma LiveAlike(r: Replicas, brainA: Brain, brainB: Brain, owners: (string, string), latest: int, u: Uuid)
    requires Ready(r)
    ensures u in After(r, brainA, owners.0, latest).entries <==> u in After(Swap(r), brainB, owners.1, latest).entries
  {
    LiveAfter(r, brainA, owners.0, latest, u);
    LiveAfter(Swap(r), brainB, owners.1, latest, u);
    DecideAlike(r, brainA, brainB, owners, latest, u);
  }

  lemma EditIsWhole(v: Vault, u: Uuid)
    requires ValidVault(v) && WholeEdits(v) && u in Index(CollectEntries(v.root))
    ensures Whole(Index(CollectEntries(v.root))[u].entry.live.modified)
  {
    IndexMeans(CollectEntries(v.root));
    var i :| 0 <= i < |CollectEntries(v.root)| && CollectEntries(v.root)[i].entry.id == u;
  }

  /** One side drops its copy exactly if the other side, deciding by its own
      deletion time, would not take it in. */
  lemma DecideAlike(r: Replicas, brainA: Brain, brainB: Brain, owners: (string, string), latest: int, u: Uuid)
    requires Ready(r)
    ensures var passA, passB := PassOf(r, brainA, owners.0, latest), PassOf(Swap(r), brainB, owners.1, latest);
            && (u in passA.local && u !in passA.peer ==> (Dropped(passA, u) <==> !Added(passB, u)))
            && (u in passB.local && u !in passB.peer ==> (Dropped(passB, u) <==> !Added(passA, u)))
  {
    FlooredMap(r.va.deletedObjects);
    FlooredMap(r.vb.deletedObjects);
    var passA, passB := PassOf(r, brainA, owners.0, latest), PassOf(Swap(r), brainB, owners.1, latest);
    if u in passA.local {
      EditIsWhole(r.va, u);
      if u in r.tb.tombstones {
        SecondsDecideAlike(passA.local[u].entry.live.modified, r.tb.tombstones[u]);
      }
    }
    if u in passB.local {
      EditIsWhole(r.vb, u);
      if u in r.ta.tombstones {
        SecondsDecideAlike(passB.local[u].entry.live.modified, r.ta.tombstones[u]);
      }
    }
  }

  /** Id by id, the times are the same exactly if both are whole seconds. */
  ghost predicate ExactWhenWhole(a: map<Uuid, Option<int>>, b: map<Uuid, Option<int>>) {
    forall u :: u in a && u in b ==> (a[u] == b[u] <==> Whole(a[u]) && Whole(b[u]))
  }

  lemma ExactAsAWhole(a: map<Uuid, Option<int>>, b: map<Uuid, Option<int>>)
    requires FloorTimes(a) == FloorTimes(b) && ExactWhenWhole(a, b)
    ensures a.Keys == b.Keys && (a == b <==> AllWhole(a) && AllWhole(b))
  {
    assert a.Keys == FloorTimes(a).Keys == b.Keys;
  }

  function TimeOf(times: map<Uuid, Option<int>>, u: Uuid): Option<int> {
    if u in times then times[u] else None
  }

  /** The two sides recorded the deletion of `u` in one second, or the earlier time is
      a whole second. */
  predicate InStep(ours: map<Uuid, Option<int>>, theirs: map<Uuid, Option<int>>, u: Uuid) {
    FloorOption(TimeOf(ours, u)) == FloorOption(TimeOf(theirs, u)) || Whole(Earliest(TimeOf(ours, u), TimeOf(theirs, u)))
  }

  /** Id by id, `a` and `b` have the same times exactly where `ours` and `theirs` were
      in step. */
  ghost predicate ExactInStep(a: map<Uuid, Option<int>>, b: map<Uuid, Option<int>>,
                              ours: map<Uuid, Option<int>>, theirs: map<Uuid, Option<int>>) {
    forall u :: u in a && u in b ==> (a[u] == b[u] <==> InStep(ours, theirs, u))
  }

  lemma UnionsAgree(ours: map<Uuid, Option<int>>, theirs: map<Uuid, Option<int>>, addedA: set<Uuid>, addedB: set<Uuid>, live: set<Uuid>)
    requires forall u :: u in ours && u in live ==> u in addedA
    requires forall u :: u in theirs && u in live ==> u in addedB
    requires addedA <= live && addedB <= live
    ensures var a, b := UnionTombstones(ours - addedA, FloorTimes(theirs), live), UnionTombstones(theirs - addedB, FloorTimes(ours), live);
            && FloorTimes(a) == FloorTimes(b) && ExactWhenWhole(a, b) && ExactInStep(a, b, ours, theirs)
  {
    var a, b := UnionTombstones(ours - addedA, FloorTimes(theirs), live), UnionTombstones(theirs - addedB, FloorTimes(ours), live);
    forall u | u in a
      ensures u in b && FloorOption(a[u]) == FloorOption(b[u]) && (a[u] == b[u] <==> Whole(a[u]) && Whole(b[u]))
      ensures a[u] == b[u] <==> InStep(ours, theirs, u)
    {
      JoinsMeet(TimeOf(ours, u), TimeOf(theirs, u));
      if u in ours { FloorIdempotent(ours[u]); }
      if u in theirs { FloorIdempotent(theirs[u]); }
    }
    assert a.Keys == b.Keys;
  }

  /** What survives on both sides, seen from each. */
  lemma SameSurvivors(r: Replicas, brainA: Brain, brainB: Brain, owners: (string, string), latest: int)
    requires Ready(r)
    ensures var passA, passB := PassOf(r, brainA, owners.0, latest), PassOf(Swap(r), brainB, owners.1, latest);
            var live := After(r, brainA, owners.0, latest).entries.Keys;
            && live == After(Swap(r), brainB, owners.1, latest).entries.Keys
            && AddedIds(passA) <= live && AddedIds(passB) <= live
            && (forall u :: u in r.ta.tombstones && u in live ==> u in AddedIds(passA))
            && (forall u :: u in r.tb.tombstones && u in live ==> u in AddedIds(passB))
  {
    LiveEntriesAgree(r, brainA, brainB, owners, latest);
    var live := After(r, brainA, owners.0, latest).entries.Keys;
    forall u
      ensures u in AddedIds(PassOf(r, brainA, owners.0, latest)) || u in AddedIds(PassOf(Swap(r), brainB, owners.1, latest)) ==> u in live
      ensures u in r.ta.tombstones && u in live ==> u in AddedIds(PassOf(r, brainA, owners.0, latest))
      ensures u in r.tb.tombstones && u in live ==> u in AddedIds(PassOf(Swap(r), brainB, owners.1, latest))
    {
      LiveAfter(r, brainA, owners.0, latest, u);
      LiveAfter(Swap(r), brainB, owners.1, latest, u);
    }
  }

  /** What one side has recorded before groups are judged. */
  ghost function JoinedOf(r: Replicas, brain: Brain, owner: string, latest: int): map<Uuid, Option<int>> {
    JoinedTombstones(PassOf(r, brain, owner, latest), r.ta, r.vb)
  }

  lemma JoinedOfMeans(r: Replicas, brain: Brain, owner: string, latest: int)
    requires Ready(r)
    ensures JoinedOf(r, brain, owner, latest) ==
            UnionTombstones(r.ta.tombstones - AddedIds(PassOf(r, brain, owner, latest)), FloorTimes(r.tb.tombstones),
                            After(r, brain, owner, latest).entries.Keys)
  {
    FlooredMap(r.vb.deletedObjects);
    ScrubsAllAdded(PassOf(r, brain, owner, latest), r.ta.tombstones);
  }

  /** Before groups are judged, both replicas hold tombstones for the same ids with
      the same times to the second; and the same times exactly if all those times
      are whole seconds. Id by id, they are the same exactly if the recorded times
      were in step. */
  lemma TombstonesAgree(r: Replicas, brainA: Brain, brainB: Brain, owners: (string, string), latest: int)
    requires Ready(r)
    ensures var a, b := JoinedOf(r, brainA, owners.0, latest), JoinedOf(Swap(r), brainB, owners.1, latest);
            && FloorTimes(a) == FloorTimes(b) && ExactWhenWhole(a, b)
            && (a == b <==> AllWhole(a) && AllWhole(b))
            && ExactInStep(a, b, r.ta.tombstones, r.tb.tombstones)
  {
    SameSurvivors(r, brainA, brainB, owners, latest);
    JoinedOfMeans(r, brainA, owners.0, latest);
    JoinedOfMeans(Swap(r), brainB, owners.1, latest);
    UnionsAgree(r.ta.tombstones, r.tb.tombstones, AddedIds(PassOf(r, brainA, owners.0, latest)),
                AddedIds(PassOf(Swap(r), brainB, owners.1, latest)), After(r, brainA, owners.0, latest).entries.Keys);
    ExactAsAWhole(JoinedOf(r, brainA, owners.0, latest), JoinedOf(Swap(r), brainB, owners.1, latest));
  }

  // ----- locations

  lemma PeerGroupHeld(r: Replicas, u: Uuid)
    requires Ready(r) && u in Index(CollectEntries(r.vb.root))
    ensures Index(CollectEntries(r.vb.root))[u].group in AfterPeerGroups(r.ta.groups, r.vb.root)
  {
    var placed := CollectEntries(r.vb.root);
    IndexMeans(placed);
    var i :| 0 <= i < |placed| && placed[i].entry.id == u;
    EntriesAreInGroups(r.vb.root, None, 0, i);
    SnapshotIsTree(r.ta.groups, r.va.root);
    AfterPeerGroupsIsTree(r.ta.groups, r.vb.root);
  }

  /** Where one side has an entry after its pass. */
  lemma LocationAfter(r: Replicas, brain: Brain, owner: string, latest: int, u: Uuid)
    requires Ready(r) && KeepsPlacement(brain) && u in After(r, brain, owner, latest).entries
    ensures var pass := PassOf(r, brain, owner, latest);
            RowLocation(After(r, brain, owner, latest).entries[u]) ==
            if u !in pass.peer then LocationIn(pass.local[u])
            else if u !in pass.local then LocationIn(pass.peer[u])
            else LandsAt(LocationIn(pass.local[u]), LocationIn(pass.peer[u]),
                         Adopts(pass.rules, pass.local[u].entry, pass.peer[u].entry))
  {
    var pass := PassOf(r, brain, owner, latest);
    var merged := AfterPeerGroups(r.ta.groups, r.vb.root);
    if u in pass.peer {
      assert After(r, brain, owner, latest).entries[u] == WalkedRow(pass, merged, r.ta.entries, u);
      WalkedLocation(r, brain, owner, latest, u);
    }
  }

  lemma WalkedLocation(r: Replicas, brain: Brain, owner: string, latest: int, u: Uuid)
    requires Ready(r) && KeepsPlacement(brain) && u in PassOf(r, brain, owner, latest).peer
    ensures var pass := PassOf(r, brain, owner, latest);
            && (u in pass.local ==> u in r.ta.entries)
            && RowLocation(WalkedRow(pass, AfterPeerGroups(r.ta.groups, r.vb.root), r.ta.entries, u)) ==
               if u !in pass.local then LocationIn(pass.peer[u])
               else LandsAt(LocationIn(pass.local[u]), LocationIn(pass.peer[u]), Adopts(pass.rules, pass.local[u].entry, pass.peer[u].entry))
  {
    var pass := PassOf(r, brain, owner, latest);
    var merged := AfterPeerGroups(r.ta.groups, r.vb.root);
    PeerGroupHeld(r, u);
    if u in pass.local {
      SharedLocation(pass.rules, merged, r.ta.entries[u], pass.local[u].entry, pass.peer[u]);
    }
  }

  /** The entries both sides hold, and the locations they would have to meet at. */
  ghost predicate LocationsMeet(r: Replicas, brainA: Brain, brainB: Brain, latest: int) {
    var passA, passB := PassOf(r, brainA, "", latest), PassOf(Swap(r), brainB, "", latest);
    forall u {:trigger passA.local[u]} :: u in passA.local && u in passA.peer ==>
      Meets(LocationIn(passA.local[u]), LocationIn(passA.peer[u]),
            Adopts(passA.rules, passA.local[u].entry, passA.peer[u].entry),
            Adopts(passB.rules, passB.local[u].entry, passB.peer[u].entry))
  }

  /** The sides of one exchange never adopt from each other. */
  lemma NotBothAdopt(r: Replicas, brainA: Brain, brainB: Brain, latest: int, u: Uuid)
    requires Ready(r)
    requires u in PassOf(r, brainA, "", latest).local && u in PassOf(r, brainA, "", latest).peer
    ensures var passA, passB := PassOf(r, brainA, "", latest), PassOf(Swap(r), brainB, "", latest);
            !(Adopts(passA.rules, passA.local[u].entry, passA.peer[u].entry)
              && Adopts(passB.rules, passB.local[u].entry, passB.peer[u].entry))
  {
    var passA := PassOf(r, brainA, "", latest);
    IndexMeans(CollectEntries(r.va.root));
    IndexMeans(CollectEntries(r.vb.root));
    AdoptionNeverSwaps(Lookup(passA.rules.localResolved, u), Lookup(passA.rules.peerResolved, u),
                       passA.local[u].entry.live.modified, passA.peer[u].entry.live.modified);
  }

  /** After the exchange an entry has the same location on both sides; for an
      entry one side adopted, exactly under `AdoptedMeets`. */
  lemma LocationsAgree(r: Replicas, brainA: Brain, brainB: Brain, owners: (string, string), latest: int)
    requires Ready(r) && KeepsPlacement(brainA) && KeepsPlacement(brainB)
    ensures var a, b := After(r, brainA, owners.0, latest).entries, After(Swap(r), brainB, owners.1, latest).entries;
            && a.Keys == b.Keys
            && ((forall u :: u in a ==> RowLocation(a[u]) == RowLocation(b[u])) <==> LocationsMeet(r, brainA, brainB, latest))
  {
    var a, b := After(r, brainA, owners.0, latest).entries, After(Swap(r), brainB, owners.1, latest).entries;
    var passA, passB := PassOf(r, brainA, "", latest), PassOf(Swap(r), brainB, "", latest);
    LiveEntriesAgree(r, brainA, brainB, owners, latest);
    forall u | u in a
      ensures RowLocation(a[u]) == RowLocation(b[u]) <==>
                (u in passA.local && u in passA.peer ==>
                   Meets(LocationIn(passA.local[u]), LocationIn(passA.peer[u]),
                         Adopts(passA.rules, passA.local[u].entry, passA.peer[u].entry),
                         Adopts(passB.rules, passB.local[u].entry, passB.peer[u].entry)))
    {
      LocationAfter(r, brainA, owners.0, latest, u);
      LocationAfter(Swap(r), brainB, owners.1, latest, u);
      if u in passA.local && u in passA.peer {
        NotBothAdopt(r, brainA, brainB, latest, u);
        LandingsMeet(LocationIn(passA.local[u]), LocationIn(passA.peer[u]),
                     Adopts(passA.rules, passA.local[u].entry, passA.peer[u].entry),
                     Adopts(passB.rules, passB.local[u].entry, passB.peer[u].entry));
      }
    }
    forall u | u in passA.local && u in passA.peer ensures u in a {
      LiveAfter(r, brainA, owners.0, latest, u);
    }
  }

  // ----- the exchange as a whole

  /** What two replicas agree on. */
  ghost predicate Converged(a: Tables, b: Tables) {
    && a.groups.Keys == b.groups.Keys && (forall u :: u in a.groups ==> Agree(a.groups[u], b.groups[u]))
    && a.entries.Keys == b.entries.Keys
    && (forall u :: u in a.entries ==> RowLocation(a.entries[u]) == RowLocation(b.entries[u]))
    && FloorTimes(a.tombstones) == FloorTimes(b.tombstones)
  }

  /** Two replicas that fold in each other's vault from before the exchange end
      with the same groups under the same parents with the same name, notes and
      icon, the same live entries at the same locations, and the same tombstones
      with the same times to the second, whatever each side's merge library decides
      about contents. The times are the same exactly if all are whole seconds, and id
      by id exactly where the times recorded before were in step. */
  lemma ExchangeConverges(r: Replicas, brainA: Brain, brainB: Brain, owners: (string, string), latest: int)
    requires Ready(r) && KeepsPlacement(brainA) && KeepsPlacement(brainB)
    requires LocationsMeet(r, brainA, brainB, latest)
    ensures var a, b := After(r, brainA, owners.0, latest), After(Swap(r), brainB, owners.1, latest);
            && Converged(a, b)
            && (a.tombstones == b.tombstones <==> AllWhole(a.tombstones) && AllWhole(b.tombstones))
            && ExactInStep(a.tombstones, b.tombstones, r.ta.tombstones, r.tb.tombstones)
  {
    var a, b := After(r, brainA, owners.0, latest), After(Swap(r), brainB, owners.1, latest);
    LocationsAgree(r, brainA, brainB, owners, latest);
    SameGroups(a.entries, b.entries);
    GroupsAndTombstonesAgree(r, brainA, brainB, owners, latest);
  }

  /** Where the entries are in the same groups, the groups and tombstones agree. */
  lemma GroupsAndTombstonesAgree(r: Replicas, brainA: Brain, brainB: Brain, owners: (string, string), latest: int)
    requires Ready(r)
    requires var a, b := After(r, brainA, owners.0, latest).entries, After(Swap(r), brainB, owners.1, latest).entries;
             a.Keys == b.Keys && forall u :: u in a ==> a[u].group == b[u].group
    ensures var a, b := After(r, brainA, owners.0, latest), After(Swap(r), brainB, owners.1, latest);
            && a.groups.Keys == b.groups.Keys && (forall u :: u in a.groups ==> Agree(a.groups[u], b.groups[u]))
            && FloorTimes(a.tombstones) == FloorTimes(b.tombstones)
            && (a.tombstones == b.tombstones <==> AllWhole(a.tombstones) && AllWhole(b.tombstones))
            && ExactInStep(a.tombstones, b.tombstones, r.ta.tombstones, r.tb.tombstones)
  {
    var a, b := After(r, brainA, owners.0, latest), After(Swap(r), brainB, owners.1, latest);
    var ga, gb := AfterPeerGroups(r.ta.groups, r.vb.root), AfterPeerGroups(r.tb.groups, r.va.root);
    MergedTreesAgree(r);
    TombstonesAgree(r, brainA, brainB, owners, latest);
    var tombA, tombB := JoinedOf(r, brainA, owners.0, latest), JoinedOf(Swap(r), brainB, owners.1, latest);
    ExactAsAWhole(tombA, tombB);
    VerdictIsShared(ga, gb, a.entries, b.entries, tombA, tombB);
    GroupsAfter(r.ta, r.va, Handed(r.vb), brainA, owners.0, latest);
    GroupsAfter(r.tb, r.vb, Handed(r.va), brainB, owners.1, latest);
    RemainingAgree(ga, gb, tombA, tombB, GoneGroups(ga, a.entries, tombA), r.ta.tombstones, r.tb.tombstones);
    AgreeThrough(a.groups, b.groups, ga, gb);
  }

  lemma SameGroups(ea: map<Uuid, EntryRow>, eb: map<Uuid, EntryRow>)
    requires ea.Keys == eb.Keys && forall u :: u in ea ==> RowLocation(ea[u]) == RowLocation(eb[u])
    ensures forall u :: u in ea ==> ea[u].group == eb[u].group
  {
    forall u | u in ea ensures ea[u].group == eb[u].group {
      assert RowLocation(ea[u]) == RowLocation(eb[u]);
    }
  }

  lemma RemainingAgree(ga: map<Uuid, GroupRow>, gb: map<Uuid, GroupRow>, ta: map<Uuid, Option<int>>, tb: map<Uuid, Option<int>>, gone: set<Uuid>,
                       ours: map<Uuid, Option<int>>, theirs: map<Uuid, Option<int>>)
    requires ga.Keys == gb.Keys && FloorTimes(ta) == FloorTimes(tb)
    requires ExactWhenWhole(ta, tb) && ExactInStep(ta, tb, ours, theirs)
    ensures var a, b := RemainingTombstones(ga, ta, gone), RemainingTombstones(gb, tb, gone);
            FloorTimes(a) == FloorTimes(b) && (a == b <==> AllWhole(a) && AllWhole(b)) && ExactInStep(a, b, ours, theirs)
  {
    assert ta.Keys == FloorTimes(ta).Keys == tb.Keys;
    var a, b := RemainingTombstones(ga, ta, gone), RemainingTombstones(gb, tb, gone);
    assert a.Keys == b.Keys;
    forall u | u in a ensures FloorOption(a[u]) == FloorOption(b[u]) {
      assert FloorTimes(ta)[u] == FloorTimes(tb)[u];
    }
    ExactAsAWhole(a, b);
  }

  lemma AgreeThrough(a: map<Uuid, GroupRow>, b: map<Uuid, GroupRow>, ga: map<Uuid, GroupRow>, gb: map<Uuid, GroupRow>)
    requires a.Keys == b.Keys && a.Keys <= ga.Keys && ga.Keys == gb.Keys
    requires forall u :: u in a ==> Agree(a[u], ga[u])
    requires forall u :: u in b ==> Agree(b[u], gb[u])
    requires forall u :: u in ga ==> Agree(ga[u], gb[u])
    ensures forall u :: u in a ==> Agree(a[u], b[u])
  {
  }

  /** The settings as each side merges them: its own with the other's from a file. */
  function MergedMetas(r: Replicas, brainA: Brain, brainB: Brain): (Meta, Meta) {
    (brainA.mergeMeta(r.va.meta, Handed(r.vb).meta), brainB.mergeMeta(r.vb.meta, Handed(r.va).meta))
  }

  /** The replicas flag the same bin exactly if both merges name it. */
  lemma BinsConverge(r: Replicas, brainA: Brain, brainB: Brain, owners: (string, string), latest: int)
    requires Ready(r)
    ensures var a, b := After(r, brainA, owners.0, latest), After(Swap(r), brainB, owners.1, latest);
            var merged := MergedMetas(r, brainA, brainB);
            && (merged.0 == merged.1 ==> a.settings == b.settings)
            && forall u :: u in a.groups && u in b.groups ==>
                 (a.groups[u].isRecycleBin == b.groups[u].isRecycleBin <==>
                    (merged.0.recycleBin == Some(u) <==> merged.1.recycleBin == Some(u)))
  {
    BinFollowsMeta(r.ta, r.va, Handed(r.vb), brainA, owners.0, latest);
    BinFollowsMeta(r.tb, r.vb, Handed(r.va), brainB, owners.1, latest);
  }

  /** `a` is strictly later than `b`. */
  predicate LaterThan(a: Option<int>, b: Option<int>) {
    CompareOptionInts(a, b) == Greater
  }

  /** The merge library takes over the other side's bin just if it was set strictly
      later. */
  ghost predicate LatestBinWins(brain: Brain) {
    forall l, p {:trigger brain.mergeMeta(l, p)} ::
      brain.mergeMeta(l, p).recycleBin == if LaterThan(p.settings.recycleBinChanged, l.settings.recycleBinChanged) then p.recycleBin else l.recycleBin
  }

  /** With last-writer-wins settings two replicas that name different bins name the
      same one after an exchange exactly if they set it in different seconds: a file
      holds the time of the change to the second, so within one second each side
      holds its own for the later one. */
  lemma BinPointersMeet(r: Replicas, brainA: Brain, brainB: Brain)
    requires LatestBinWins(brainA) && LatestBinWins(brainB)
    ensures var merged := MergedMetas(r, brainA, brainB);
            merged.0.recycleBin == merged.1.recycleBin <==>
              || r.va.meta.recycleBin == r.vb.meta.recycleBin
              || FloorOption(r.va.meta.settings.recycleBinChanged) != FloorOption(r.vb.meta.settings.recycleBinChanged)
  {
  }

  /** This owner's conflict row exists for an entry both sides hold exactly when
      the pass holds that conflict open, and then it is the peer's entry; all other
      rows are as they were. */
  lemma ConflictRowsExact(r: Replicas, brain: Brain, owner: string, latest: int, k: Owned)
    requires Ready(r)
    ensures var pass, after := PassOf(r, brain, owner, latest), After(r, brain, owner, latest);
            if k.owner == owner && k.entry in pass.local && k.entry in pass.peer then
              var l, p := pass.local[k.entry].entry, pass.peer[k.entry].entry;
              && (k in after.conflicts <==> brain.classify(l, p).Conflict? && DecideFor(pass.rules, l, p) == HoldOpen)
              && (k in after.conflicts ==> after.conflicts[k] == p)
            else
              && (k in after.conflicts <==> k in r.ta.conflicts)
              && (k in after.conflicts ==> after.conflicts[k] == r.ta.conflicts[k])
  {
    var pass := PassOf(r, brain, owner, latest);
    OwnerRowsAt(r.ta.conflicts, owner, pass.peer.Keys * pass.local.Keys, ParkedBy(pass), k);
  }

  lemma OwnerRowsAt(conflicts: map<Owned, Entry>, owner: string, touched: set<Uuid>, parked: map<Uuid, Entry>, k: Owned)
    requires parked.Keys <= touched
    ensures var after := OwnerRows(conflicts, owner, touched, parked);
            if k.owner == owner && k.entry in touched
            then (k in after <==> k.entry in parked) && (k in after ==> after[k] == parked[k.entry])
            else (k in after <==> k in conflicts) && (k in after ==> after[k] == conflicts[k])
  {
    if k.owner == owner && k.entry in parked {
      assert k == Owned(owner, k.entry);
    }
  }

  lemma SharedAfter(r: Replicas, brain: Brain, owner: string, latest: int, u: Uuid)
    requires Ready(r) && u in r.ta.entries && u in r.tb.entries
    ensures var pass := PassOf(r, brain, owner, latest);
            && u in pass.local && u in pass.peer && pass.peer[u].entry.id == u && pass.local[u].entry.id == u
            && u in After(r, brain, owner, latest).entries
            && After(r, brain, owner, latest).entries[u] ==
               SharedRow(pass.rules, AfterPeerGroups(r.ta.groups, r.vb.root), r.ta.entries[u], pass.local[u].entry, pass.peer[u])
  {
    var pass := PassOf(r, brain, owner, latest);
    IndexMeans(CollectEntries(r.va.root));
    IndexMeans(CollectEntries(r.vb.root));
    EntriesAfterAt(pass, AfterPeerGroups(r.ta.groups, r.vb.root), r.ta.entries, u);
  }

  /** The live version each side holds of an entry both call a conflict: nobody
      swaps, and with one resolution record both end on the resolver's version or
      both keep the conflict open. */
  lemma ConflictedVersions(r: Replicas, brainA: Brain, brainB: Brain, owners: (string, string), latest: int, u: Uuid)
    requires Ready(r) && u in r.ta.entries && u in r.tb.entries
    requires var passA := PassOf(r, brainA, owners.0, latest);
             && brainA.classify(passA.local[u].entry, passA.peer[u].entry).Conflict?
             && brainB.classify(passA.peer[u].entry, passA.local[u].entry).Conflict?
    ensures var passA := PassOf(r, brainA, owners.0, latest);
            var a, b := After(r, brainA, owners.0, latest), After(Swap(r), brainB, owners.1, latest);
            var seenA, seenB := passA.local[u].entry.live, passA.peer[u].entry.live;
            var d := BothDecide(Lookup(passA.rules.localResolved, u), Lookup(passA.rules.peerResolved, u), seenA.modified, seenB.modified);
            && u in a.entries && u in b.entries
            && a.entries[u].entry.live == (if d.0 == AdoptPeer then seenB else r.ta.entries[u].entry.live)
            && b.entries[u].entry.live == (if d.1 == AdoptPeer then seenA else r.tb.entries[u].entry.live)
            && (a.entries[u].entry.live == r.ta.entries[u].entry.live || b.entries[u].entry.live == r.tb.entries[u].entry.live)
            && (u !in passA.rules.localResolved && u in passA.rules.peerResolved ==>
                  || (a.entries[u].entry.live == seenB && b.entries[u].entry.live == r.tb.entries[u].entry.live)
                  || (Owned(owners.0, u) in a.conflicts && Owned(owners.1, u) in b.conflicts))
  {
    var passA, passB := PassOf(r, brainA, owners.0, latest), PassOf(Swap(r), brainB, owners.1, latest);
    SharedAfter(r, brainA, owners.0, latest, u);
    SharedAfter(Swap(r), brainB, owners.1, latest, u);
    AdoptionNeverSwaps(Lookup(passA.rules.localResolved, u), Lookup(passA.rules.peerResolved, u),
                       passA.local[u].entry.live.modified, passA.peer[u].entry.live.modified);
    ConflictRowsExact(r, brainA, owners.0, latest, Owned(owners.0, u));
    ConflictRowsExact(Swap(r), brainB, owners.1, latest, Owned(owners.1, u));
    ConflictLive(passA.rules, AfterPeerGroups(r.ta.groups, r.vb.root), r.ta.entries[u], passA.local[u].entry, passA.peer[u]);
    ConflictLive(passB.rules, AfterPeerGroups(r.tb.groups, r.va.root), r.tb.entries[u], passB.local[u].entry, passB.peer[u]);
  }

  lemma ConflictLive(rules: Rules, groups: map<Uuid, GroupRow>, row: EntryRow, local: Entry, peer: Placed)
    requires rules.brain.classify(local, peer.entry).Conflict?
    ensures SharedRow(rules, groups, row, local, peer).entry.live ==
            if DecideFor(rules, local, peer.entry) == AdoptPeer then peer.entry.live else row.entry.live
  {
  }

  // ----- a pass over the mirror's own vault

  /** The merge library recognises a vault as itself, also from its file. */
  ghost predicate KnowsItself(brain: Brain, v: Vault) {
    && (forall u :: u in Index(CollectEntries(v.root)) ==>
          var e := Index(CollectEntries(v.root))[u].entry;
          && brain.classify(e, e).InSync? && e.historyTombstones.None?
          && brain.dropCount(e.history) == 0
          && forall i :: 0 <= i < |e.history| ==> !Dangles(e.history[i]))
    && brain.mergeMeta(v.meta, Handed(v).meta) == v.meta
  }

  /** No change means no write: a pass over the mirror's own vault, as a file holds
      it, leaves every projected table as it was but for floored deletion times; and
      it leaves the watermark alone exactly if those were whole seconds. */
  lemma OwnSnapshotIsQuiet(t: Tables, v: Vault, brain: Brain, owner: string, latest: int)
    requires Represents(t, v) && NoOwnTombstone(t) && t.groups.Keys !! t.tombstones.Keys && KnowsItself(brain, v)
    ensures QuietObjects(StartPass(brain, owner, latest, v, Handed(v)), t, Handed(v)) <==> AllWhole(t.tombstones)
    ensures brain.mergeMeta(v.meta, Handed(v).meta) == v.meta
    ensures var after := PeerPass.PeerPass(brain, owner, latest, t, v, Handed(v));
            after.groups == t.groups && after.entries == t.entries && after.tombstones == FloorTimes(t.tombstones)
            && after.icons == t.icons && after.settings == t.settings
  {
    OwnGroupsQuiet(t, v);
    OwnEntriesQuiet(t, v, brain, owner, latest);
    OwnPassIsQuiet(t, v, brain, owner, latest);
  }

  lemma OwnPassIsQuiet(t: Tables, v: Vault, brain: Brain, owner: string, latest: int)
    requires ValidVault(v) && t.icons == v.icons && t.groups.Keys !! t.tombstones.Keys && QuietGroups(t.groups, v)
    requires brain.mergeMeta(v.meta, Handed(v).meta) == v.meta
    requires var pass := StartPass(brain, owner, latest, v, Handed(v));
             && EntriesAfter(pass, t.groups, t.entries) == t.entries
             && TombstonesAfter(pass, t.groups, t.entries, t.tombstones) == FloorTimes(t.tombstones)
    ensures var pass, after := StartPass(brain, owner, latest, v, Handed(v)), PeerPass.PeerPass(brain, owner, latest, t, v, Handed(v));
            && (QuietObjects(pass, t, Handed(v)) <==> QuietEntries(pass, t.groups, t.entries, t.tombstones))
            && after.groups == t.groups && after.entries == t.entries && after.tombstones == FloorTimes(t.tombstones)
            && after.icons == t.icons && after.settings == t.settings
  {
    QuietGroupsStay(t.groups, v);
    QuietWhenUnmoved(StartPass(brain, owner, latest, v, Handed(v)), t, Handed(v));
    UnmovedPass(t, v, Handed(v), brain, owner, latest);
    assert t.icons + t.icons == t.icons;
  }

  lemma QuietWhenUnmoved(pass: Pass, t: Tables, peer: Vault)
    requires QuietGroups(t.groups, peer) && MergedTree(t, peer) == t.groups
    requires TombstonesAfter(pass, t.groups, t.entries, t.tombstones).Keys !! t.groups.Keys
    ensures QuietObjects(pass, t, peer) <==> QuietEntries(pass, t.groups, t.entries, t.tombstones) && peer.icons.Keys <= t.icons.Keys
  {
  }

  /** A pass that moves neither groups nor entries and settles nothing. */
  lemma UnmovedPass(t: Tables, local: Vault, peer: Vault, brain: Brain, owner: string, latest: int)
    requires MergedTree(t, peer) == t.groups
    requires var pass := StartPass(brain, owner, latest, local, peer);
             && EntriesAfter(pass, t.groups, t.entries) == t.entries
             && TombstonesAfter(pass, t.groups, t.entries, t.tombstones).Keys !! t.groups.Keys
    ensures var pass, after := StartPass(brain, owner, latest, local, peer), PeerPass.PeerPass(brain, owner, latest, t, local, peer);
            && after.entries == t.entries && after.tombstones == TombstonesAfter(pass, t.groups, t.entries, t.tombstones)
            && after.icons == peer.icons + t.icons
            && (brain.mergeMeta(local.meta, peer.meta) == local.meta ==> after.groups == t.groups && after.settings == t.settings)
  {
    var pass := StartPass(brain, owner, latest, local, peer);
    NothingTombstoned(t.groups, t.entries, TombstonesAfter(pass, t.groups, t.entries, t.tombstones));
  }

  lemma EntriesStay(pass: Pass, groups: map<Uuid, GroupRow>, entries: map<Uuid, EntryRow>)
    requires forall u :: !Dropped(pass, u)
    requires WalkedRows(pass, groups, entries) == entries
    ensures EntriesAfter(pass, groups, entries) == entries
  {
    assert entries + entries == entries;
  }

  lemma OwnGroupsQuiet(t: Tables, v: Vault)
    requires Represents(t, v)
    ensures QuietGroups(t.groups, v)
  {
    var flat := Flatten(v.root);
    SnapshotIsTree(t.groups, v.root);
    GroupsClosedParents(t.groups, v.root.id);
    AcyclicIsTree(ParentsOf(t.groups), v.root.id);
    forall i | 0 <= i < |flat|
      ensures flat[i].node.id in t.groups && Merged(t.groups[flat[i].node.id], flat[i]) == t.groups[flat[i].node.id]
    {
      FindAt(flat, i);
      CompareMetadataTotal(NodeMetadata(flat[i].node), RowMetadata(t.groups[flat[i].node.id]));
    }
  }

  lemma OwnTombstones(tombstones: map<Uuid, Option<int>>, live: set<Uuid>)
    requires live !! tombstones.Keys
    ensures UnionTombstones(tombstones, FloorTimes(tombstones), live) == FloorTimes(tombstones)
    ensures FloorTimes(tombstones) == tombstones <==> AllWhole(tombstones)
  {
    var union := UnionTombstones(tombstones, FloorTimes(tombstones), live);
    forall u | u in union ensures union[u] == FloorOption(tombstones[u]) {
    }
  }

  lemma OwnEntriesQuiet(t: Tables, v: Vault, brain: Brain, owner: string, latest: int)
    requires Represents(t, v) && NoOwnTombstone(t) && KnowsItself(brain, v)
    ensures var pass := StartPass(brain, owner, latest, v, Handed(v));
            && (QuietEntries(pass, t.groups, t.entries, t.tombstones) <==> AllWhole(t.tombstones))
            && EntriesAfter(pass, t.groups, t.entries) == t.entries
            && TombstonesAfter(pass, t.groups, t.entries, t.tombstones) == FloorTimes(t.tombstones)
  {
    FlooredMap(v.deletedObjects);
    OwnRowsStay(t, v, brain, StartPass(brain, owner, latest, v, Handed(v)));
    SettledEntries(StartPass(brain, owner, latest, v, Handed(v)), t.groups, t.entries, t.tombstones);
  }

  /** A pass whose walk changes no entry only joins the tombstones. */
  lemma SettledEntries(pass: Pass, groups: map<Uuid, GroupRow>, entries: map<Uuid, EntryRow>, tombstones: map<Uuid, Option<int>>)
    requires entries.Keys == pass.local.Keys == pass.peer.Keys && entries.Keys !! tombstones.Keys
    requires WalkedRows(pass, groups, entries) == entries && QuietWalk(pass, groups, entries)
    requires pass.peerTomb == FloorTimes(tombstones)
    ensures QuietEntries(pass, groups, entries, tombstones) <==> AllWhole(tombstones)
    ensures EntriesAfter(pass, groups, entries) == entries
    ensures TombstonesAfter(pass, groups, entries, tombstones) == FloorTimes(tombstones)
  {
    EntriesStay(pass, groups, entries);
    NothingAdded(pass, tombstones);
    OwnTombstones(tombstones, entries.Keys);
  }

  lemma NothingAdded(pass: Pass, tombstones: map<Uuid, Option<int>>)
    requires pass.peer.Keys <= pass.local.Keys
    ensures Scrubbed(pass) == {} && tombstones - Scrubbed(pass) == tombstones
    ensures pass.local.Keys <= pass.peer.Keys ==> forall u :: !Dropped(pass, u)
  {
  }

  lemma OwnRowsStay(t: Tables, v: Vault, brain: Brain, pass: Pass)
    requires Represents(t, v) && KnowsItself(brain, v)
    requires pass.rules.brain == brain && pass.local == pass.peer == Index(CollectEntries(v.root))
    ensures WalkedRows(pass, t.groups, t.entries) == t.entries
    ensures QuietWalk(pass, t.groups, t.entries)
  {
    forall u | u in t.entries
      ensures !SharedWrites(pass.rules, t.groups, t.entries[u], pass.local[u].entry, pass.peer[u])
      ensures WalkedRow(pass, t.groups, t.entries, u) == t.entries[u]
    {
      OwnRowStays(t, v, brain, pass, u);
    }
    RowsUnchanged(pass, t.groups, t.entries);
  }

  lemma RowsUnchanged(pass: Pass, groups: map<Uuid, GroupRow>, entries: map<Uuid, EntryRow>)
    requires entries.Keys == pass.local.Keys == pass.peer.Keys
    requires forall u {:trigger entries[u]} :: u in entries ==> WalkedRow(pass, groups, entries, u) == entries[u]
    ensures WalkedRows(pass, groups, entries) == entries
  {
    assert WalkedRows(pass, groups, entries).Keys == entries.Keys;
  }

  lemma OwnRowStays(t: Tables, v: Vault, brain: Brain, pass: Pass, u: Uuid)
    requires Represents(t, v) && KnowsItself(brain, v) && u in t.entries
    requires pass.rules.brain == brain && pass.local == pass.peer == Index(CollectEntries(v.root))
    ensures !SharedWrites(pass.rules, t.groups, t.entries[u], pass.local[u].entry, pass.peer[u])
    ensures WalkedRow(pass, t.groups, t.entries, u) == t.entries[u]
  {
    HistoryIsItself(pass.peer[u].entry.history);
    OwnEntryQuiet(pass.rules, t.groups, t.entries[u], pass.peer[u]);
  }

  lemma OwnEntryQuiet(rules: Rules, groups: map<Uuid, GroupRow>, row: EntryRow, placed: Placed)
    requires Stands(row, placed) && placed.entry.historyTombstones.None?
    requires rules.brain.classify(placed.entry, placed.entry).InSync? && rules.brain.dropCount(placed.entry.history) == 0
    requires HistoriesIdentical(placed.entry.history, placed.entry.history)
    ensures !SharedWrites(rules, groups, row, placed.entry, placed)
    ensures SharedRow(rules, groups, row, placed.entry, placed) == row
  {
  }
}
