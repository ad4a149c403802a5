/** Runs of peer passes: the mirror is projected anew before each. */
module PassRuns {
  import opened Order
  import opened GroupGraph
  import opened Store
  import opened EntryRules
  import opened BinWalk
  import opened GroupSync
  import opened GroupTombstones
  import opened EntrySync
  import opened PeerEntries
  import opened PeerPass
  import opened PassSoundness
  import opened Projection

  /** One pull of a peer's vault. `resolutions` are the records the mirror's custom
      data holds at that moment. */
  datatype Pull = Pull(peer: Vault, brain: Brain, owner: string, latest: int, resolutions: seq<Resolution>)

  ghost predicate Fits(p: Pull, root: Uuid) {
    ValidVault(p.peer) && p.peer.root.id == root && KeepsPlacement(p.brain)
  }

  ghost predicate AllFit(pulls: seq<Pull>, root: Uuid) {
    forall p :: p in pulls ==> Fits(p, root)
  }

  /** A pass that does not commit leaves everything as it was. */
  ghost function Pulled(t: Tables, root: Uuid, p: Pull): Tables
    requires Projectable(t, root)
  {
    if Commits(PassFor(t, root, p), t.entries)
    then PeerPass.PeerPass(p.brain, p.owner, p.latest, t, Project(t, root, p.resolutions), p.peer) else t
  }

  ghost function PassFor(t: Tables, root: Uuid, p: Pull): Pass
    requires Projectable(t, root)
  {
    StartPass(p.brain, p.owner, p.latest, Project(t, root, p.resolutions), p.peer)
  }

  lemma SharedRowId(rules: Rules, groups: map<Uuid, GroupRow>, row: EntryRow, local: Entry, peer: Placed)
    requires KeepsPlacement(rules.brain) && row.entry.id == local.id == peer.entry.id
    ensures SharedRow(rules, groups, row, local, peer).entry.id == peer.entry.id
  {
    var outcome := ApplyVerdict(rules, row, local, peer.entry);
    assert outcome.row.entry.id == peer.entry.id;
  }

  lemma IndexedById(v: Vault, u: Uuid)
    requires ValidVault(v) && u in Index(CollectEntries(v.root))
    ensures Index(CollectEntries(v.root))[u].entry.id == u
  {
    IndexMeans(CollectEntries(v.root));
    var i :| 0 <= i < |CollectEntries(v.root)| && CollectEntries(v.root)[i].entry.id == u;
  }

  lemma KeyedStays(t: Tables, local: Vault, peer: Vault, brain: Brain, owner: string, latest: int)
    requires Foldable(t, local, peer) && Keyed(t.entries) && KeepsPlacement(brain)
    ensures Keyed(PeerPass.PeerPass(brain, owner, latest, t, local, peer).entries)
  {
    var after, pass := PeerPass.PeerPass(brain, owner, latest, t, local, peer), StartPass(brain, owner, latest, local, peer);
    forall u | u in after.entries ensures after.entries[u].entry.id == u {
      EntriesAfterAt(pass, MergedTree(t, peer), t.entries, u);
      if u in pass.peer {
        IndexedById(peer, u);
        if u in t.entries {
          IndexedById(local, u);
          SharedRowId(pass.rules, MergedTree(t, peer), t.entries[u], pass.local[u].entry, pass.peer[u]);
        }
      }
    }
  }

  ghost predicate Emptied(t: Tables) {
    t.groups == map[] && t.entries == map[]
  }

  /** A pull leaves tables that can be projected again, exactly unless it commits and
      leaves nothing. */
  lemma PullKeeps(t: Tables, root: Uuid, p: Pull)
    requires Projectable(t, root) && Fits(p, root)
    ensures t.entries.Keys == PassFor(t, root, p).local.Keys
    ensures if Commits(PassFor(t, root, p), t.entries) && NothingLeft(PassFor(t, root, p), t, p.peer)
            then Emptied(Pulled(t, root, p)) else Projectable(Pulled(t, root, p), root)
  {
    var local := Project(t, root, p.resolutions);
    ProjectionExists(t, root, p.resolutions);
    PassKeepsSound(t, local, p.peer, p.brain, p.owner, p.latest);
    KeyedStays(t, local, p.peer, p.brain, p.owner, p.latest);
  }

  /** A run of pulls, until one empties the tables. */
  ghost function PullRun(t: Tables, root: Uuid, pulls: seq<Pull>): (end: Tables)
    requires Projectable(t, root) && AllFit(pulls, root)
    ensures Projectable(end, root) || Emptied(end)
    decreases |pulls|
  {
    if pulls == [] then t
    else
      assert pulls[0] in pulls;
      PullKeeps(t, root, pulls[0]);
      var next := Pulled(t, root, pulls[0]);
      if Emptied(next) then next else PullRun(next, root, pulls[1..])
  }

  /** No peer of the run recorded the deletion of the root. */
  ghost predicate RootSpared(root: Uuid, pulls: seq<Pull>) {
    forall p :: p in pulls ==> root !in TombstoneMap(p.peer.deletedObjects)
  }

  /** Any run of pulls over any vaults leaves sound tables, as long as no peer
      recorded the root itself as deleted. */
  lemma {:induction false} RunKeepsSound(t: Tables, root: Uuid, pulls: seq<Pull>)
    requires Projectable(t, root) && AllFit(pulls, root) && RootSpared(root, pulls)
    ensures Sound(PullRun(t, root, pulls), root)
    decreases |pulls|
  {
    if pulls != [] {
      FirstPull(t, root, pulls);
      RunKeepsSound(Pulled(t, root, pulls[0]), root, pulls[1..]);
    }
  }

  lemma RootIsNotJoined(t: Tables, root: Uuid, p: Pull)
    requires Projectable(t, root) && Fits(p, root) && root !in TombstoneMap(p.peer.deletedObjects)
    ensures !NothingLeft(PassFor(t, root, p), t, p.peer)
  {
    assert root in MergedTree(t, p.peer) && root !in JoinedTombstones(PassFor(t, root, p), t, p.peer);
  }

  /** The first pull of a run that spares the root, and the rest of the run. */
  lemma FirstPull(t: Tables, root: Uuid, pulls: seq<Pull>)
    requires Projectable(t, root) && AllFit(pulls, root) && RootSpared(root, pulls) && pulls != []
    ensures Fits(pulls[0], root) && Projectable(Pulled(t, root, pulls[0]), root)
    ensures AllFit(pulls[1..], root) && RootSpared(root, pulls[1..])
    ensures PullRun(t, root, pulls) == PullRun(Pulled(t, root, pulls[0]), root, pulls[1..])
  {
    assert pulls[0] in pulls;
    PullKeeps(t, root, pulls[0]);
    RootIsNotJoined(t, root, pulls[0]);
    assert root in Pulled(t, root, pulls[0]).groups;
  }

  // ----- nothing vanishes

  /** The tables know what became of `u`: it is live, or recorded as deleted. */
  ghost predicate Accounted(t: Tables, u: Uuid) {
    u in t.groups || u in t.entries || u in t.tombstones
  }

  /** The vault holds `u` or records its deletion. */
  ghost predicate HeardFrom(v: Vault, u: Uuid) {
    u in Ids(Flatten(v.root)) || u in Index(CollectEntries(v.root)) || u in TombstoneMap(v.deletedObjects)
  }

  /** What a pass accounts for: all that the mirror did, and over a current projection
      all that the peer holds or records as deleted. */
  lemma PassAccounts(t: Tables, local: Vault, peer: Vault, brain: Brain, owner: string, latest: int, u: Uuid)
    requires Accounted(t, u) || (Foldable(t, local, peer) && HeardFrom(peer, u))
    ensures Accounted(PeerPass.PeerPass(brain, owner, latest, t, local, peer), u)
  {
    var pass := StartPass(brain, owner, latest, local, peer);
    EntriesAfterAt(pass, MergedTree(t, peer), t.entries, u);
    GroupsAfter(t, local, peer, brain, owner, latest);
    GoneAreTombstoned(MergedTree(t, peer), EntriesAfter(pass, MergedTree(t, peer), t.entries), JoinedTombstones(pass, t, peer));
  }

  /** Over any run, whatever was live or recorded as deleted at the start is live or
      recorded as deleted at the end: nothing disappears without a tombstone. */
  lemma {:induction false} NothingVanishes(t: Tables, root: Uuid, pulls: seq<Pull>, u: Uuid)
    requires Projectable(t, root) && AllFit(pulls, root)
    requires Accounted(t, u)
    ensures Accounted(PullRun(t, root, pulls), u)
    decreases |pulls|
  {
    if pulls != [] {
      assert pulls[0] in pulls;
      PullKeeps(t, root, pulls[0]);
      PullAccounts(t, root, pulls[0], u);
      if !Emptied(Pulled(t, root, pulls[0])) {
        NothingVanishes(Pulled(t, root, pulls[0]), root, pulls[1..], u);
      }
    }
  }

  lemma PullAccounts(t: Tables, root: Uuid, p: Pull, u: Uuid)
    requires Projectable(t, root) && Fits(p, root)
    requires Accounted(t, u) || (Commits(PassFor(t, root, p), t.entries) && HeardFrom(p.peer, u))
    ensures Accounted(Pulled(t, root, p), u)
  {
    ProjectionExists(t, root, p.resolutions);
    assert PassFor(t, root, p) == StartPass(p.brain, p.owner, p.latest, Project(t, root, p.resolutions), p.peer);
    PassAccounts(t, Project(t, root, p.resolutions), p.peer, p.brain, p.owner, p.latest, u);
  }

  /** Every pull of the run commits. */
  ghost predicate AllCommit(t: Tables, root: Uuid, pulls: seq<Pull>)
    requires Projectable(t, root) && AllFit(pulls, root) && RootSpared(root, pulls)
    decreases |pulls|
  {
    if pulls == [] then true
    else
      FirstPull(t, root, pulls);
      Commits(PassFor(t, root, pulls[0]), t.entries) && AllCommit(Pulled(t, root, pulls[0]), root, pulls[1..])
  }

  /** And every peer of a run that spares the root and commits is heard. */
  lemma {:induction false} PeersAreHeard(t: Tables, root: Uuid, pulls: seq<Pull>, p: Pull, u: Uuid)
    requires Projectable(t, root) && AllFit(pulls, root) && RootSpared(root, pulls)
    requires AllCommit(t, root, pulls) && p in pulls && HeardFrom(p.peer, u)
    ensures Accounted(PullRun(t, root, pulls), u)
    decreases |pulls|
  {
    FirstPull(t, root, pulls);
    if p == pulls[0] {
      PullAccounts(t, root, p, u);
      NothingVanishes(Pulled(t, root, p), root, pulls[1..], u);
    } else {
      PeersAreHeard(Pulled(t, root, pulls[0]), root, pulls[1..], p, u);
    }
  }
}
