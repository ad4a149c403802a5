/** What a peer pass makes of the flags of entries in the bin. */
module PassFlags {
  import opened Order
  import opened GroupGraph
  import opened Store
  import opened EntryRules
  import opened BinWalk
  import opened GroupSync
  import opened EntrySync
  import opened PeerEntries
  import opened PeerPass
  import opened PassSoundness

  // ----- the bin after the pass, from what goes in

  /** The bin after the merge of the settings: the one there is if nothing of the
      peer's won, else the one they name. */
  ghost predicate NextBin(t: Tables, local: Vault, peer: Vault, brain: Brain, b: Uuid) {
    b in MergedTree(t, peer)
    && var meta := brain.mergeMeta(local.meta, peer.meta);
       if meta == local.meta then IsBin(t.groups, b) else meta.recycleBin == Some(b)
  }

  /** Inside that bin in the merged tree. */
  ghost predicate InNextBin(t: Tables, local: Vault, peer: Vault, brain: Brain, g: Uuid) {
    exists b :: NextBin(t, local, peer, brain, b) && Within(ParentsOf(MergedTree(t, peer)), g, b)
  }

  /** For a group that survives, being inside the bin after the pass can be read off
      the merged tree and the merged settings. */
  lemma InBinAfter(t: Tables, local: Vault, peer: Vault, brain: Brain, owner: string, latest: int, g: Uuid)
    requires Standing(t, peer.root.id) && ValidVault(peer) && local.root.id == peer.root.id
    requires g in PeerPass.PeerPass(brain, owner, latest, t, local, peer).groups
    ensures InBin(PeerPass.PeerPass(brain, owner, latest, t, local, peer).groups, g) <==> InNextBin(t, local, peer, brain, g)
  {
    var after, merged := PeerPass.PeerPass(brain, owner, latest, t, local, peer).groups, MergedTree(t, peer);
    GroupsAfter(t, local, peer, brain, owner, latest);
    FlagsAfter(t, local, peer, brain, owner, latest);
    PassKeepsStanding(t, local, peer, brain, owner, latest);
    AfterPeerGroupsIsTree(t.groups, peer.root);
    forall n: nat
      ensures Ancestor(ParentsOf(after), g, n) == Ancestor(ParentsOf(merged), g, n)
      ensures Ancestor(ParentsOf(after), g, n).Some? ==> Ancestor(ParentsOf(after), g, n).value in after
    {
      SameAncestors(after, merged, peer.root.id, g, n);
    }
    BinsMatch(t, local, peer, brain, after, g);
  }

  lemma BinsMatch(t: Tables, local: Vault, peer: Vault, brain: Brain, after: map<Uuid, GroupRow>, g: Uuid)
    requires after.Keys <= MergedTree(t, peer).Keys
    requires forall b :: b in after ==> (IsBin(after, b) <==> NextBin(t, local, peer, brain, b))
    requires forall n: nat :: Ancestor(ParentsOf(after), g, n) == Ancestor(ParentsOf(MergedTree(t, peer)), g, n)
    requires forall n: nat :: Ancestor(ParentsOf(after), g, n).Some? ==> Ancestor(ParentsOf(after), g, n).value in after
    ensures InBin(after, g) <==> InNextBin(t, local, peer, brain, g)
  {
    var p, q := ParentsOf(after), ParentsOf(MergedTree(t, peer));
    if InBin(after, g) {
      var b: Uuid :| IsBin(after, b) && Within(p, g, b);
      var n: nat :| Ancestor(p, g, n) == Some(b);
      assert Ancestor(q, g, n) == Some(b);
      assert Within(q, g, b) && NextBin(t, local, peer, brain, b);
    }
    if InNextBin(t, local, peer, brain, g) {
      var b: Uuid :| NextBin(t, local, peer, brain, b) && Within(q, g, b);
      var n: nat :| Ancestor(q, g, n) == Some(b);
      assert Ancestor(p, g, n) == Some(b);
      assert Within(p, g, b) && IsBin(after, b);
    }
  }

  // ----- one entry

  /** The pass takes over the peer's place for an entry both sides hold. */
  ghost predicate Relocates(rules: Rules, groups: map<Uuid, GroupRow>, row: EntryRow, local: Entry, peer: Placed) {
    peer.group in groups
    && CompareLocations(LocationOf(peer.entry, peer.group), RowLocation(ApplyVerdict(rules, row, local, peer.entry).row)) == Greater
  }

  lemma FlagOfShared(rules: Rules, groups: map<Uuid, GroupRow>, row: EntryRow, local: Entry, peer: Placed)
    ensures SharedRow(rules, groups, row, local, peer).isRecycled ==
            if Relocates(rules, groups, row, local, peer) then InBin(groups, peer.group) else row.isRecycled
    ensures SharedRow(rules, groups, row, local, peer).group ==
            if Relocates(rules, groups, row, local, peer) then peer.group else row.group
  {
  }

  ghost predicate Moves(pass: Pass, t: Tables, peer: Vault, u: Uuid)
    requires u in t.entries
  {
    u in pass.local && u in pass.peer
    && Relocates(pass.rules, MergedTree(t, peer), t.entries[u], pass.local[u].entry, pass.peer[u])
  }

  /** Where the pass puts an entry. */
  ghost function LandsIn(pass: Pass, t: Tables, peer: Vault, u: Uuid): Uuid
    requires u in t.entries || u in pass.peer
  {
    if u in t.entries && !Moves(pass, t, peer, u) then t.entries[u].group else pass.peer[u].group
  }

  /** Which side of the bin's border it was judged to be on: a moved entry by the
      merged tree and the bin so far, one that stays by the tree so far; a new entry
      always counts as outside. */
  ghost predicate JudgedInside(pass: Pass, t: Tables, peer: Vault, u: Uuid)
    requires u in t.entries || u in pass.peer
  {
    u in t.entries && InBin(if Moves(pass, t, peer, u) then MergedTree(t, peer) else t.groups, LandsIn(pass, t, peer, u))
  }

  lemma FlagAfter(t: Tables, local: Vault, peer: Vault, brain: Brain, owner: string, latest: int, u: Uuid)
    requires var pass := StartPass(brain, owner, latest, local, peer);
             ValidVault(peer) && Standing(t, peer.root.id) && Commits(pass, t.entries) && FlagsExact(t.groups, t.entries)
    requires u in PeerPass.PeerPass(brain, owner, latest, t, local, peer).entries
    ensures u in t.entries || u in StartPass(brain, owner, latest, local, peer).peer
    ensures var pass, row := StartPass(brain, owner, latest, local, peer), PeerPass.PeerPass(brain, owner, latest, t, local, peer).entries[u];
            row.group == LandsIn(pass, t, peer, u) && (row.isRecycled <==> JudgedInside(pass, t, peer, u))
  {
    var pass := StartPass(brain, owner, latest, local, peer);
    RowAfter(pass, MergedTree(t, peer), t.entries, u);
    EntriesAfterAt(pass, MergedTree(t, peer), t.entries, u);
    if u in t.entries && u in pass.local && u in pass.peer {
      FlagOfShared(pass.rules, MergedTree(t, peer), t.entries[u], pass.local[u].entry, pass.peer[u]);
    }
    if u !in t.entries {
      GroupOfPeer(t, peer, u);
    }
  }

  // ----- all entries

  /** What survives: ours unless the peer's deletion of it stands, and the peer's new
      ones unless ours does. */
  ghost predicate Survives(pass: Pass, t: Tables, u: Uuid) {
    (u in t.entries && !Dropped(pass, u)) || Added(pass, u)
  }

  /** Each entry that survives lands on the side of the bin's border that it is
      judged to be on, in the merged tree with the merged bin. */
  ghost predicate NoneCrosses(pass: Pass, t: Tables, local: Vault, peer: Vault) {
    forall u :: Survives(pass, t, u) ==> StaysOnItsSide(pass, t, local, peer, u)
  }

  ghost predicate StaysOnItsSide(pass: Pass, t: Tables, local: Vault, peer: Vault, u: Uuid)
    requires u in t.entries || u in pass.peer
  {
    JudgedInside(pass, t, peer, u) <==> InNextBin(t, local, peer, pass.rules.brain, LandsIn(pass, t, peer, u))
  }

  /** A pass keeps the flags exact if and only if no entry crosses the border of the
      bin unnoticed: a new entry comes in outside it, and neither a group's move nor a
      change of bin takes an entry across. */
  lemma PassKeepsFlagsExactly(t: Tables, local: Vault, peer: Vault, brain: Brain, owner: string, latest: int)
    requires var pass := StartPass(brain, owner, latest, local, peer);
             ValidVault(peer) && Standing(t, peer.root.id) && local.root.id == peer.root.id
             && Commits(pass, t.entries) && FlagsExact(t.groups, t.entries)
    ensures var after := PeerPass.PeerPass(brain, owner, latest, t, local, peer);
            FlagsExact(after.groups, after.entries) <==> NoneCrosses(StartPass(brain, owner, latest, local, peer), t, local, peer)
  {
    var pass, after := StartPass(brain, owner, latest, local, peer), PeerPass.PeerPass(brain, owner, latest, t, local, peer);
    forall u
      ensures u in after.entries <==> Survives(pass, t, u)
      ensures u in after.entries ==> (FlagExact(after, u) <==> StaysOnItsSide(pass, t, local, peer, u))
    {
      EntriesAfterAt(pass, MergedTree(t, peer), t.entries, u);
      if u in after.entries {
        OneFlag(t, local, peer, brain, owner, latest, u);
      }
    }
  }

  ghost predicate FlagExact(t: Tables, u: Uuid)
    requires u in t.entries
  {
    t.entries[u].isRecycled <==> InBin(t.groups, t.entries[u].group)
  }

  lemma OneFlag(t: Tables, local: Vault, peer: Vault, brain: Brain, owner: string, latest: int, u: Uuid)
    requires var pass := StartPass(brain, owner, latest, local, peer);
             ValidVault(peer) && Standing(t, peer.root.id) && local.root.id == peer.root.id
             && Commits(pass, t.entries) && FlagsExact(t.groups, t.entries)
    requires u in PeerPass.PeerPass(brain, owner, latest, t, local, peer).entries
    ensures u in t.entries || u in StartPass(brain, owner, latest, local, peer).peer
    ensures FlagExact(PeerPass.PeerPass(brain, owner, latest, t, local, peer), u) <==>
              StaysOnItsSide(StartPass(brain, owner, latest, local, peer), t, local, peer, u)
  {
    FlagAfter(t, local, peer, brain, owner, latest, u);
    PassKeepsStanding(t, local, peer, brain, owner, latest);
    InBinAfter(t, local, peer, brain, owner, latest, PeerPass.PeerPass(brain, owner, latest, t, local, peer).entries[u].group);
  }

  /** In particular an entry the peer has in the bin comes in unflagged. */
  lemma NewInBinIsUnflagged(t: Tables, local: Vault, peer: Vault, brain: Brain, owner: string, latest: int, u: Uuid)
    requires var pass := StartPass(brain, owner, latest, local, peer);
             ValidVault(peer) && Standing(t, peer.root.id) && local.root.id == peer.root.id
             && Commits(pass, t.entries) && FlagsExact(t.groups, t.entries)
             && Added(pass, u) && InNextBin(t, local, peer, brain, pass.peer[u].group)
    ensures var after := PeerPass.PeerPass(brain, owner, latest, t, local, peer);
            u in after.entries && !after.entries[u].isRecycled && InBin(after.groups, after.entries[u].group)
            && !FlagsExact(after.groups, after.entries)
  {
    var pass, after := StartPass(brain, owner, latest, local, peer), PeerPass.PeerPass(brain, owner, latest, t, local, peer);
    EntriesAfterAt(pass, MergedTree(t, peer), t.entries, u);
    assert !Clashes(pass, t.entries, u);
    FlagAfter(t, local, peer, brain, owner, latest, u);
    PassKeepsStanding(t, local, peer, brain, owner, latest);
    InBinAfter(t, local, peer, brain, owner, latest, after.entries[u].group);
  }
}
