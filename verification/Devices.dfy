/** Devices end to end: opening files into mirrors and exchanging vaults. */
module Devices {
  import opened Order
  import opened Store
  import opened EntryRules
  import opened BinWalk
  import opened GroupSync
  import EntryFields
  import opened EntrySync
  import opened PeerPass
  import opened PassSoundness
  import opened Exchange
  import opened FullIngest

  /** A vault that no live entry of its own is recorded as deleted in, whose bin is
      one of its groups and whose edits are recorded to the second. */
  ghost predicate Tidy(v: Vault) {
    BinResolves(v) && WholeEdits(v) && Index(CollectEntries(v.root)).Keys !! TombstoneMap(v.deletedObjects).Keys
  }

  ghost function Bare(v: Vault): Tables {
    Tables(map[], map[], map[], map[], map[], v.meta.settings)
  }

  /** `LocationsMeet` depends on the vaults only. */
  ghost predicate VaultsMeet(va: Vault, vb: Vault, brainA: Brain, brainB: Brain, latest: int) {
    LocationsMeet(Replicas(Bare(va), va, Bare(vb), vb), brainA, brainB, latest)
  }

  lemma MeetingIsAboutVaults(r: Replicas, brainA: Brain, brainB: Brain, latest: int)
    ensures LocationsMeet(r, brainA, brainB, latest) <==> VaultsMeet(r.va, r.vb, brainA, brainB, latest)
  {
    var bare := Replicas(Bare(r.va), r.va, Bare(r.vb), r.vb);
    assert PassOf(r, brainA, "", latest) == PassOf(bare, brainA, "", latest);
    assert PassOf(Swap(r), brainB, "", latest) == PassOf(Swap(bare), brainB, "", latest);
  }

  lemma OpenedIsReady(r: Replicas)
    requires Represents(r.ta, r.va) && Represents(r.tb, r.vb) && r.va.root.id == r.vb.root.id
    requires Tidy(r.va) && Tidy(r.vb)
    requires |Ids(Flatten(r.va.root)) + Ids(Flatten(r.vb.root))| <= MAX_WALK
    ensures Ready(r)
    ensures |AfterPeerGroups(r.ta.groups, r.vb.root)| <= MAX_WALK && |AfterPeerGroups(r.tb.groups, r.va.root)| <= MAX_WALK
  {
    MergedTreesAgree(r);
    var a, b := AfterPeerGroups(r.ta.groups, r.vb.root), AfterPeerGroups(r.tb.groups, r.va.root);
    assert a.Keys == b.Keys == Ids(Flatten(r.va.root)) + Ids(Flatten(r.vb.root));
    assert |a| == |a.Keys| && |b| == |b.Keys|;
  }

  // ----- committing

  /** What the merge library merges has no field name or data key twice if neither
      input has. */
  ghost predicate MergesFit(brain: Brain) {
    forall l, p {:trigger brain.classify(l, p)} ::
      brain.classify(l, p).AutoMerged? && EntryFields.EntryFits(l) && EntryFields.EntryFits(p) ==>
        EntryFields.EntryFits(brain.classify(l, p).merged)
  }

  /** All that a pass of `local`'s device over `peer` inserts fits. */
  ghost predicate PullFits(brain: Brain, owner: string, latest: int, local: Vault, peer: Vault) {
    var pass := StartPass(brain, owner, latest, local, Handed(peer));
    forall u {:trigger pass.peer[u]} :: u in pass.peer ==> InsertFits(pass, u)
  }

  /** Between files that can be opened a pass commits. */
  lemma PullsFit(brain: Brain, owner: string, latest: int, local: Vault, peer: Vault)
    requires MergesFit(brain) && Insertable(local) && Insertable(peer)
    ensures PullFits(brain, owner, latest, local, peer)
  {
    var pass := StartPass(brain, owner, latest, local, Handed(peer));
    forall u | u in pass.peer ensures InsertFits(pass, u) {
      FitsInVault(peer, u);
      if u in pass.local {
        FitsInVault(local, u);
        assert pass.rules.brain.classify(pass.local[u].entry, pass.peer[u].entry) == brain.classify(pass.local[u].entry, pass.peer[u].entry);
      }
    }
  }

  lemma FitsInVault(v: Vault, u: Uuid)
    requires Insertable(v) && u in Index(CollectEntries(v.root))
    ensures EntryFields.EntryFits(Index(CollectEntries(v.root))[u].entry)
  {
    IndexMeans(CollectEntries(v.root));
    var i :| 0 <= i < |CollectEntries(v.root)| && CollectEntries(v.root)[i].entry.id == u;
  }

  // ----- the devices

  /** Two devices open their files, then each pulls the other's vault:
      they converge. Opening fails only on a file with a repeated key, and then a pull
      only on a merge that repeats a key. */
  method OpenAndExchange(a: Mirror, b: Mirror, va: Vault, vb: Vault, brainA: Brain, brainB: Brain,
                         owners: (string, string), latest: int) returns (loaded: bool, ok: bool)
    requires a != b && va.root.id == vb.root.id && Tidy(va) && Tidy(vb)
    requires |Ids(Flatten(va.root)) + Ids(Flatten(vb.root))| <= MAX_WALK
    requires KeepsPlacement(brainA) && KeepsPlacement(brainB) && VaultsMeet(va, vb, brainA, brainB, latest)
    modifies a, b
    ensures loaded <==> Insertable(va) && Insertable(vb)
    ensures ok <==> loaded && PullFits(brainA, owners.0, latest, va, vb) && PullFits(brainB, owners.1, latest, vb, va)
    ensures loaded && MergesFit(brainA) && MergesFit(brainB) ==> ok
    ensures ok ==> Converged(Contents(a), Contents(b))
    ensures ok ==> NoOwnTombstone(Contents(a)) && NoOwnTombstone(Contents(b))
  {
    var openA := IngestVault(a, va);
    var openB := IngestVault(b, vb);
    if !openA || !openB {
      return false, false;
    }
    loaded := true;
    ghost var r := Replicas(Contents(a), va, Contents(b), vb);
    OpenedIsReady(r);
    MeetingIsAboutVaults(r, brainA, brainB, latest);
    ok := ExchangeVaults(a, b, va, vb, brainA, brainB, owners, latest);
    if MergesFit(brainA) && MergesFit(brainB) {
      PullsFit(brainA, owners.0, latest, va, vb);
      PullsFit(brainB, owners.1, latest, vb, va);
    }
  }

  /** A simultaneous exchange: each device pulls the vault the other had before. */
  method ExchangeVaults(a: Mirror, b: Mirror, va: Vault, vb: Vault, brainA: Brain, brainB: Brain, owners: (string, string), latest: int)
      returns (ok: bool)
    requires a != b && Ready(Replicas(Contents(a), va, Contents(b), vb))
    requires |AfterPeerGroups(a.groups, vb.root)| <= MAX_WALK && |AfterPeerGroups(b.groups, va.root)| <= MAX_WALK
    requires KeepsPlacement(brainA) && KeepsPlacement(brainB)
    requires LocationsMeet(Replicas(Contents(a), va, Contents(b), vb), brainA, brainB, latest)
    modifies a, b
    ensures ok <==> PullFits(brainA, owners.0, latest, va, vb) && PullFits(brainB, owners.1, latest, vb, va)
    ensures ok ==> Converged(Contents(a), Contents(b))
    ensures NoOwnTombstone(Contents(a)) && NoOwnTombstone(Contents(b))
  {
    ghost var r := Replicas(Contents(a), va, Contents(b), vb);
    RepresentedStands(r.ta, va);
    RepresentedStands(r.tb, vb);
    CommitsOverCurrent(StartPass(brainA, owners.0, latest, va, Handed(vb)), a.entries);
    CommitsOverCurrent(StartPass(brainB, owners.1, latest, vb, Handed(va)), b.entries);
    var okA := IngestPeer(a, brainA, owners.0, latest, va, Handed(vb));
    var okB := IngestPeer(b, brainB, owners.1, latest, vb, Handed(va));
    Exchange.ExchangeConverges(r, brainA, brainB, owners, latest);
    LiveNotTombstoned(r.ta, r.va, Handed(r.vb), brainA, owners.0, latest);
    LiveNotTombstoned(r.tb, r.vb, Handed(r.va), brainB, owners.1, latest);
    ok := okA && okB;
  }

  /** A pass over the mirror's own vault inserts nothing, so it commits. */
  lemma OwnPassCommits(t: Tables, v: Vault, brain: Brain, owner: string, latest: int)
    requires Represents(t, v) && KnowsItself(brain, v)
    ensures Commits(StartPass(brain, owner, latest, v, Handed(v)), t.entries)
  {
    var pass := StartPass(brain, owner, latest, v, Handed(v));
    forall u | u in pass.peer ensures !Clashes(pass, t.entries, u) {
      assert brain.classify(pass.local[u].entry, pass.peer[u].entry).InSync?;
    }
  }

  /** A device that pulls the file of its own vault leaves everything as it is but
      for the fraction of its own deletion times; it writes exactly if there is one. */
  method PullOwn(m: Mirror, v: Vault, brain: Brain, owner: string, latest: int)
    requires Represents(Contents(m), v) && NoOwnTombstone(Contents(m)) && m.groups.Keys !! m.tombstones.Keys && KnowsItself(brain, v)
    requires |AfterPeerGroups(m.groups, v.root)| <= MAX_WALK
    modifies m
    ensures m.groups == old(m.groups) && m.entries == old(m.entries) && m.icons == old(m.icons) && m.settings == old(m.settings)
    ensures m.tombstones == FloorTimes(old(m.tombstones))
    ensures m.mutationSeq == old(m.mutationSeq) <==> AllWhole(old(m.tombstones))
  {
    OwnSnapshotIsQuiet(Contents(m), v, brain, owner, latest);
    OwnPassCommits(Contents(m), v, brain, owner, latest);
    RepresentedStands(Contents(m), v);
    var _ := IngestPeer(m, brain, owner, latest, v, Handed(v));
  }

  /** A device that opens a file and pulls that same file. */
  method OpenAndPullOwn(m: Mirror, v: Vault, brain: Brain, owner: string, latest: int) returns (ok: bool, ghost start: Tables, ghost startSeq: nat)
    requires Tidy(v) && Ids(Flatten(v.root)) !! TombstoneMap(v.deletedObjects).Keys && KnowsItself(brain, v)
    requires |Ids(Flatten(v.root))| <= MAX_WALK
    modifies m
    ensures ok <==> Insertable(v)
    ensures ok ==> Represents(start, v) && (m.mutationSeq == startSeq <==> AllWhole(start.tombstones))
    ensures ok ==> m.groups == start.groups && m.entries == start.entries && m.tombstones == FloorTimes(start.tombstones)
                   && m.icons == start.icons && m.settings == start.settings
  {
    ok := IngestVault(m, v);
    start, startSeq := Contents(m), m.mutationSeq;
    if !ok {
      return;
    }
    OpenedIsReady(Replicas(Contents(m), v, Contents(m), v)) by {
      assert Ids(Flatten(v.root)) + Ids(Flatten(v.root)) == Ids(Flatten(v.root));
    }
    PullOwn(m, v, brain, owner, latest);
  }
}
