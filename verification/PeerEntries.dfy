/** The entry half of a peer pass, step by step over the mirror. */
module PeerEntries {
  import opened Order
  import opened GroupGraph
  import opened Store
  import opened EntryRules
  import opened BinWalk
  import EntryFields
  import opened EntrySync

  /** What the bin walk needs of the group table. */
  ghost predicate Walkable(groups: map<Uuid, GroupRow>, root: Uuid) {
    GroupTree(groups, root) && AtMostOneBin(groups) && |groups| <= MAX_WALK
  }

  // ----- one entry

  /** Take over the peer's location if it is the later one. */
  method ReconcileEntryLocation(m: Mirror, u: Uuid, peer: Placed, ghost root: Uuid) returns (moved: bool)
    requires Walkable(m.groups, root)
    modifies m`entries, m`mutationSeq
    ensures u in old(m.entries) ==> m.entries == old(m.entries)[u := WithLocation(m.groups, old(m.entries)[u], peer)]
    ensures u !in old(m.entries) ==> m.entries == old(m.entries)
    ensures moved <==> u in old(m.entries) && peer.group in m.groups && PlacedLater(peer.entry, peer.group, old(m.entries)[u])
    ensures moved ==>
      && u in m.entries && m.entries[u].group == peer.group && m.entries[u].isRecycled == InBin(m.groups, peer.group)
      && m.entries[u].entry == old(m.entries)[u].entry.(locationChanged := FloorOption(peer.entry.locationChanged),
                                                        previousParent := peer.entry.previousParent)
    ensures moved <==> m.entries != old(m.entries)
    ensures m.mutationSeq == old(m.mutationSeq) + if moved then 1 else 0
  {
    if u !in m.entries {
      return false;
    }
    var row := m.entries[u];
    LaterPlaced(peer.entry, peer.group, row);
    if CompareLocations(LocationOf(peer.entry, peer.group), RowLocation(row)) != Greater {
      return false;
    }
    if peer.group !in m.groups {
      return false;
    }
    FloorIdempotent(peer.entry.locationChanged);
    var inBin := GroupInBinSubtree(m.groups, peer.group, root);
    var placed := EntryRow(peer.group, inBin,
                           row.entry.(locationChanged := FloorOption(peer.entry.locationChanged), previousParent := peer.entry.previousParent));
    assert RowLocation(placed) != RowLocation(row);
    m.entries := m.entries[u := placed];
    m.mutationSeq := m.mutationSeq + 1;
    return true;
  }

  /** Replace an entry's version: its row must be there, and its rows must fit. */
  method AdvanceLocalEntry(m: Mirror, u: Uuid, entry: Entry) returns (ok: bool)
    modifies m`entries, m`mutationSeq
    ensures ok <==> u in old(m.entries) && EntryFields.EntryFits(entry)
    ensures ok ==> m.entries == old(m.entries)[u := old(m.entries)[u].(entry := entry)] && m.mutationSeq == old(m.mutationSeq) + 1
    ensures !ok ==> m.entries == old(m.entries) && m.mutationSeq == old(m.mutationSeq)
  {
    if u !in m.entries {
      return false;
    }
    var rows := EntryFields.InsertRows(entry);
    if rows.None? {
      return false;
    }
    m.entries := m.entries[u := m.entries[u].(entry := entry)];
    m.mutationSeq := m.mutationSeq + 1;
    return true;
  }

  /** The conflict rows after one verdict. */
  function OneConflict(pass: Pass, conflicts: map<Owned, Entry>, local: Entry, peer: Entry): map<Owned, Entry> {
    if HeldOpen(pass.rules, local, peer) then conflicts[Owned(pass.owner, peer.id) := peer]
    else conflicts - {Owned(pass.owner, peer.id)}
  }

  /** The entries after one verdict. */
  function OneVerdict(pass: Pass, entries: map<Uuid, EntryRow>, local: Entry, peer: Entry): map<Uuid, EntryRow> {
    if peer.id in entries then entries[peer.id := ApplyVerdict(pass.rules, entries[peer.id], local, peer).row] else entries
  }

  /** Apply the merge library's verdict on an entry both sides hold. Only this
      owner's conflict row is refreshed or cleared. */
  method ApplyVerdictToMirror(m: Mirror, pass: Pass, local: Entry, peer: Entry) returns (ok: bool, base: HistoryBase)
    modifies m`entries, m`conflicts, m`mutationSeq
    ensures ok <==> (Overwrites(pass.rules, local, peer) ==>
                       peer.id in old(m.entries) && EntryFields.EntryFits(Inserted(pass.rules, local, peer)))
    ensures ok ==> base == BaseFor(pass.rules, local, peer)
                   && m.entries == OneVerdict(pass, old(m.entries), local, peer)
                   && m.conflicts == OneConflict(pass, old(m.conflicts), local, peer)
                   && m.mutationSeq == old(m.mutationSeq) + if Overwrites(pass.rules, local, peer) then 1 else 0
  {
    ok := true;
    m.conflicts := m.conflicts - {Owned(pass.owner, peer.id)};
    match pass.rules.brain.classify(local, peer)
    case InSync =>
      base := FoldFrom(local, peer);
    case AutoMerged(merged, changes) =>
      var moves := MovesLocal(local.live, merged.live, changes != []);
      var time := MergedTime(merged.live, moves, local.live, peer.live, pass.rules.latest);
      var advanced := WithPreMergeSnapshot(merged.(live := merged.live.(modified := time)), moves, local, peer);
      var attachments := ApplyChanges(advanced.live.attachments, changes);
      base := FoldFrom(advanced, peer);
      ok := AdvanceLocalEntry(m, peer.id, advanced.(live := advanced.live.(attachments := attachments)));
    case Conflict =>
      match DecideFor(pass.rules, local, peer) {
        case LocalHolds =>
          base := Held;
        case AdoptPeer =>
          base := FoldFrom(peer, local);
          ok := AdvanceLocalEntry(m, peer.id, peer);
        case HoldOpen =>
          m.conflicts := m.conflicts[Owned(pass.owner, peer.id) := peer];
          base := Held;
      }
  }

  /** Rewrite the entry's history rows and its history tombstones, if asked to. An
      empty history writes no row. */
  method PersistEntryHistory(m: Mirror, u: Uuid, folded: Option<Folded>) returns (ok: bool)
    modifies m`entries, m`mutationSeq
    ensures ok <==> (u !in old(m.entries) && folded.Some? ==> folded.value.history == [] && folded.value.tombstones.None?)
    ensures ok && u in old(m.entries) ==> m.entries == old(m.entries)[u := WithHistory(old(m.entries)[u], folded)]
    ensures ok && u !in old(m.entries) ==> m.entries == old(m.entries)
    ensures ok ==> m.mutationSeq == old(m.mutationSeq) + if u in old(m.entries) && folded.Some? then 1 else 0
  {
    if u !in m.entries {
      return folded.None? || (folded.value.history == [] && folded.value.tombstones.None?);
    }
    if folded.Some? {
      m.entries := m.entries[u := WithHistory(m.entries[u], folded)];
      m.mutationSeq := m.mutationSeq + 1;
    }
    ok := true;
  }

  /** Verdict, then location, then history. */
  method ReconcileSharedEntry(m: Mirror, pass: Pass, local: Entry, peer: Placed, ghost root: Uuid) returns (ok: bool)
    requires Walkable(m.groups, root)
    modifies m`entries, m`conflicts, m`mutationSeq
    ensures var u := peer.entry.id;
            ok <==> if u in old(m.entries)
                    then Overwrites(pass.rules, local, peer.entry) ==> EntryFields.EntryFits(Inserted(pass.rules, local, peer.entry))
                    else !NeedsRow(pass.rules, local, peer.entry)
    ensures var u := peer.entry.id;
            ok ==>
              && m.entries == (if u in old(m.entries)
                               then old(m.entries)[u := SharedRow(pass.rules, m.groups, old(m.entries)[u], local, peer)]
                               else old(m.entries))
              && m.conflicts == OneConflict(pass, old(m.conflicts), local, peer.entry)
              && m.mutationSeq >= old(m.mutationSeq)
              && (m.mutationSeq == old(m.mutationSeq) <==>
                    (u in old(m.entries) ==> !SharedWrites(pass.rules, m.groups, old(m.entries)[u], local, peer)))
  {
    var u := peer.entry.id;
    if u in m.entries {
      VerdictParts(pass.rules, m.entries[u], local, peer.entry);
    }
    var base: HistoryBase;
    ok, base := ApplyVerdictToMirror(m, pass, local, peer.entry);
    if !ok {
      return;
    }
    var moved := ReconcileEntryLocation(m, u, peer, root);
    ok := PersistEntryHistory(m, u, FoldedHistory(pass.rules.brain, base, local, peer.entry));
  }

  /** Our deletion of the peer's entry does not stand, or there is none. */
  predicate ComesIn(pass: Pass, peer: Entry) {
    peer.id in pass.localTomb ==> LiveEditWins(peer.live.modified, pass.localTomb[peer.id])
  }

  /** The tables after one entry of the peer. */
  ghost function OneEntry(pass: Pass, groups: map<Uuid, GroupRow>, t: EntryTables, peer: Placed): EntryTables {
    var u := peer.entry.id;
    if u in pass.local then
      EntryTables(
        if u in t.entries then t.entries[u := SharedRow(pass.rules, groups, t.entries[u], pass.local[u].entry, peer)] else t.entries,
        t.tombstones,
        OneConflict(pass, t.conflicts, pass.local[u].entry, peer.entry))
    else if ComesIn(pass, peer.entry) then
      EntryTables(t.entries[u := EntryRow(if peer.group in groups then peer.group else pass.root, false, peer.entry)],
                  if u in pass.localTomb then t.tombstones - {u} else t.tombstones, t.conflicts)
    else t
  }

  /** One entry of the peer fails the pass. */
  ghost predicate EntryClashes(pass: Pass, entries: map<Uuid, EntryRow>, peer: Placed) {
    var u := peer.entry.id;
    if u in pass.local then
      if u in entries then Overwrites(pass.rules, pass.local[u].entry, peer.entry)
                           && !EntryFields.EntryFits(Inserted(pass.rules, pass.local[u].entry, peer.entry))
      else NeedsRow(pass.rules, pass.local[u].entry, peer.entry)
    else ComesIn(pass, peer.entry) && (u in entries || !EntryFields.EntryFits(peer.entry))
  }

  ghost predicate EntryWrites(pass: Pass, groups: map<Uuid, GroupRow>, entries: map<Uuid, EntryRow>, peer: Placed) {
    var u := peer.entry.id;
    if u in pass.local then u in entries && SharedWrites(pass.rules, groups, entries[u], pass.local[u].entry, peer)
    else ComesIn(pass, peer.entry)
  }

  function TablesOf(m: Mirror): EntryTables
    reads m
  {
    EntryTables(m.entries, m.tombstones, m.conflicts)
  }

  /** One entry of the peer: reconciled if the projection holds it, else taken in
      unless our deletion of it stands. */
  method ReconcilePeerEntry(m: Mirror, pass: Pass, peer: Placed) returns (ok: bool)
    requires Walkable(m.groups, pass.root)
    modifies m`entries, m`tombstones, m`conflicts, m`mutationSeq
    ensures ok <==> !EntryClashes(pass, old(m.entries), peer)
    ensures ok ==> TablesOf(m) == OneEntry(pass, m.groups, old(TablesOf(m)), peer)
    ensures ok ==> m.mutationSeq >= old(m.mutationSeq)
    ensures ok ==> (m.mutationSeq == old(m.mutationSeq) <==> !EntryWrites(pass, m.groups, old(m.entries), peer))
  {
    var u := peer.entry.id;
    if u in pass.local {
      ok := ReconcileSharedEntry(m, pass, pass.local[u].entry, peer, pass.root);
      return;
    }
    if u in pass.localTomb {
      if !LiveEditWins(peer.entry.live.modified, pass.localTomb[u]) {
        return true;
      }
      m.mutationSeq := m.mutationSeq + if u in m.tombstones then 1 else 0;
      m.tombstones := m.tombstones - {u};
    }
    var rows := EntryFields.InsertRows(peer.entry);
    if u in m.entries || rows.None? {
      return false;
    }
    var group := if peer.group in m.groups then peer.group else pass.root;
    m.entries := m.entries[u := EntryRow(group, false, peer.entry)];
    m.mutationSeq := m.mutationSeq + 1;
    ok := true;
  }

  // ----- the walk over the peer's entries

  /** The pass as far as the first `n` entries of the peer. */
  ghost function Upto(pass: Pass, placed: seq<Placed>, n: nat): Pass
    requires n <= |placed|
  {
    pass.(peer := Index(placed[..n]))
  }

  lemma UptoStep(pass: Pass, placed: seq<Placed>, n: nat)
    requires n < |placed| && DistinctEntries(placed)
    ensures Upto(pass, placed, n + 1) == pass.(peer := Upto(pass, placed, n).peer[placed[n].entry.id := placed[n]])
    ensures placed[n].entry.id !in Upto(pass, placed, n).peer
  {
    assert placed[..n + 1][..n] == placed[..n];
    IndexMeans(placed[..n]);
  }

  /** No entry of the peer makes the walk write. */
  ghost predicate QuietWalk(pass: Pass, groups: map<Uuid, GroupRow>, entries: map<Uuid, EntryRow>) {
    forall u {:trigger pass.peer[u]} :: u in pass.peer ==>
      if u in pass.local
      then u in entries ==> !SharedWrites(pass.rules, groups, entries[u], pass.local[u].entry, pass.peer[u])
      else !Added(pass, u)
  }

  /** `next` is `pass` with one more entry of the peer. */
  ghost predicate OneMore(pass: Pass, next: Pass, u: Uuid, peer: Placed) {
    u !in pass.peer && next == pass.(peer := pass.peer[u := peer])
  }

  lemma WalkOne(pass: Pass, next: Pass, groups: map<Uuid, GroupRow>, entries: map<Uuid, EntryRow>, u: Uuid, peer: Placed)
    requires OneMore(pass, next, u, peer)
    ensures WalkedRows(next, groups, entries) ==
            if Sets(next, entries, u)
            then WalkedRows(pass, groups, entries)[u := WalkedRow(next, groups, entries, u)]
            else WalkedRows(pass, groups, entries)
    ensures u !in WalkedRows(pass, groups, entries)
  {
    var before, after := WalkedRows(pass, groups, entries), WalkedRows(next, groups, entries);
    forall v | v != u ensures v in after <==> v in before
      ensures v in before ==> after[v] == before[v]
    {
      OtherWalkedRow(pass, next, groups, entries, u, peer, v);
    }
    assert u in after <==> Sets(next, entries, u);
    OneKeyMore(before, after, u);
  }

  lemma OneKeyMore(before: map<Uuid, EntryRow>, after: map<Uuid, EntryRow>, u: Uuid)
    requires u !in before
    requires forall v :: v != u ==> (v in after <==> v in before)
    requires forall v :: v in before && v in after ==> after[v] == before[v]
    ensures after == if u in after then before[u := after[u]] else before
  {
    assert forall v :: v in before ==> v != u;
  }

  lemma OtherWalkedRow(pass: Pass, next: Pass, groups: map<Uuid, GroupRow>, entries: map<Uuid, EntryRow>, u: Uuid, peer: Placed, v: Uuid)
    requires OneMore(pass, next, u, peer) && v != u
    ensures v in WalkedRows(next, groups, entries) <==> v in WalkedRows(pass, groups, entries)
    ensures v in WalkedRows(pass, groups, entries) ==> WalkedRows(next, groups, entries)[v] == WalkedRows(pass, groups, entries)[v]
  {
    if v in pass.peer {
      SameWalkedRow(pass, next, groups, entries, v);
    }
  }

  lemma SameWalkedRow(pass: Pass, next: Pass, groups: map<Uuid, GroupRow>, entries: map<Uuid, EntryRow>, v: Uuid)
    requires v in pass.peer && v in next.peer && pass.peer[v] == next.peer[v]
    requires next.rules == pass.rules && next.local == pass.local && next.localTomb == pass.localTomb && next.root == pass.root
    ensures Added(pass, v) <==> Added(next, v)
    ensures Sets(pass, entries, v) <==> Sets(next, entries, v)
    ensures Sets(pass, entries, v) ==> WalkedRow(next, groups, entries, v) == WalkedRow(pass, groups, entries, v)
  {
  }

  lemma AddOne(pass: Pass, next: Pass, u: Uuid, peer: Placed)
    requires OneMore(pass, next, u, peer)
    ensures Scrubbed(next) == if Added(next, u) && u in pass.localTomb then Scrubbed(pass) + {u} else Scrubbed(pass)
  {
    assert AddedIds(next) == if Added(next, u) then AddedIds(pass) + {u} else AddedIds(pass);
  }

  /** What is parked after one more entry of the peer. */
  lemma ParkOne(pass: Pass, next: Pass, u: Uuid, peer: Placed)
    requires OneMore(pass, next, u, peer)
    ensures u !in ParkedBy(pass) && ParkedBy(pass).Keys <= pass.peer.Keys * pass.local.Keys
    ensures u in pass.local && HeldOpen(pass.rules, pass.local[u].entry, peer.entry) ==> ParkedBy(next) == ParkedBy(pass)[u := peer.entry]
    ensures !(u in pass.local && HeldOpen(pass.rules, pass.local[u].entry, peer.entry)) ==> ParkedBy(next) == ParkedBy(pass)
  {
    var before, after := ParkedBy(pass), ParkedBy(next);
    forall v | v != u ensures v in after <==> v in before
      ensures v in before ==> after[v] == before[v]
    {
      if v in pass.peer {
        assert next.peer[v] == pass.peer[v];
      }
    }
    assert u in after <==> u in pass.local && HeldOpen(pass.rules, pass.local[u].entry, peer.entry);
    if u in after {
      assert after.Keys == before.Keys + {u};
    } else {
      assert after.Keys == before.Keys;
    }
  }

  lemma OwnerRowsHold(conflicts: map<Owned, Entry>, owner: string, touched: set<Uuid>, parked: map<Uuid, Entry>, u: Uuid, held: Entry)
    requires u !in touched && parked.Keys <= touched
    ensures OwnerRows(conflicts, owner, touched + {u}, parked[u := held]) == OwnerRows(conflicts, owner, touched, parked)[Owned(owner, u) := held]
  {
    var before, after := OwnerRows(conflicts, owner, touched, parked), OwnerRows(conflicts, owner, touched + {u}, parked[u := held]);
    forall k ensures k in after <==> k in before || k == Owned(owner, u) {
      if k.owner == owner && k.entry == u {
        assert k == Owned(owner, u);
      }
    }
    assert after.Keys == before.Keys + {Owned(owner, u)};
  }

  lemma OwnerRowsClear(conflicts: map<Owned, Entry>, owner: string, touched: set<Uuid>, parked: map<Uuid, Entry>, u: Uuid)
    requires u !in touched && parked.Keys <= touched
    ensures OwnerRows(conflicts, owner, touched + {u}, parked) == OwnerRows(conflicts, owner, touched, parked) - {Owned(owner, u)}
  {
    var before, after := OwnerRows(conflicts, owner, touched, parked), OwnerRows(conflicts, owner, touched + {u}, parked);
    forall k ensures k in after <==> k in before && k != Owned(owner, u) {
      if k.owner == owner && k.entry == u {
        assert k == Owned(owner, u);
      }
    }
    assert after.Keys == before.Keys - {Owned(owner, u)};
  }

  lemma Overlay(under: map<Uuid, EntryRow>, over: map<Uuid, EntryRow>, u: Uuid, row: EntryRow)
    ensures under + over[u := row] == (under + over)[u := row]
  {
  }

  /** What the walk so far has left of an entry it has not come to. */
  lemma NotYetWalked(pass: Pass, groups: map<Uuid, GroupRow>, t: EntryTables, u: Uuid)
    requires u !in pass.peer
    ensures u in Walked(pass, groups, t).entries <==> u in t.entries
    ensures u in t.entries ==> Walked(pass, groups, t).entries[u] == t.entries[u]
  {
  }

  /** Walking one more entry is one step from what walking the others left. */
  lemma WalkStep(pass: Pass, next: Pass, groups: map<Uuid, GroupRow>, t: EntryTables, peer: Placed)
    requires OneMore(pass, next, peer.entry.id, peer)
    ensures Walked(next, groups, t).entries == OneEntry(pass, groups, Walked(pass, groups, t), peer).entries
    ensures Walked(next, groups, t).tombstones == OneEntry(pass, groups, Walked(pass, groups, t), peer).tombstones
  {
    var u := peer.entry.id;
    NotYetWalked(pass, groups, t, u);
    WalkOne(pass, next, groups, t.entries, u, peer);
    AddOne(pass, next, u, peer);
    if Sets(next, t.entries, u) {
      Overlay(t.entries, WalkedRows(pass, groups, t.entries), u, WalkedRow(next, groups, t.entries, u));
    }
    if Added(next, u) && u in pass.localTomb {
      assert t.tombstones - Scrubbed(next) == t.tombstones - Scrubbed(pass) - {u};
    }
  }

  /** The conflict rows after one more entry of the peer. */
  lemma ConflictStep(pass: Pass, next: Pass, conflicts: map<Owned, Entry>, peer: Placed)
    requires OneMore(pass, next, peer.entry.id, peer)
    ensures ConflictsAfter(next, conflicts) ==
            if peer.entry.id in pass.local
            then OneConflict(pass, ConflictsAfter(pass, conflicts), pass.local[peer.entry.id].entry, peer.entry)
            else ConflictsAfter(pass, conflicts)
  {
    var u, touched := peer.entry.id, pass.peer.Keys * pass.local.Keys;
    ParkOne(pass, next, u, peer);
    if u !in pass.local {
      assert next.peer.Keys * pass.local.Keys == touched;
    } else {
      assert next.peer.Keys * pass.local.Keys == touched + {u};
      if HeldOpen(pass.rules, pass.local[u].entry, peer.entry) {
        OwnerRowsHold(conflicts, pass.owner, touched, ParkedBy(pass), u, peer.entry);
      } else {
        OwnerRowsClear(conflicts, pass.owner, touched, ParkedBy(pass), u);
      }
    }
  }

  lemma QuietOne(pass: Pass, next: Pass, groups: map<Uuid, GroupRow>, entries: map<Uuid, EntryRow>, peer: Placed)
    requires OneMore(pass, next, peer.entry.id, peer)
    ensures QuietWalk(next, groups, entries) <==>
              QuietWalk(pass, groups, entries) && !EntryWrites(pass, groups, entries, peer)
  {
    assert next.peer[peer.entry.id] == peer;
    assert Added(next, peer.entry.id) <==> peer.entry.id !in pass.local && ComesIn(pass, peer.entry);
    forall v | v in pass.peer
      ensures v in next.peer && next.peer[v] == pass.peer[v] && (Added(next, v) <==> Added(pass, v))
    {
    }
  }

  lemma CommitsOne(pass: Pass, next: Pass, entries: map<Uuid, EntryRow>, peer: Placed)
    requires OneMore(pass, next, peer.entry.id, peer)
    ensures Commits(next, entries) <==> Commits(pass, entries) && !EntryClashes(pass, entries, peer)
  {
    assert next.peer[peer.entry.id] == peer;
    assert Added(next, peer.entry.id) <==> peer.entry.id !in pass.local && ComesIn(pass, peer.entry);
    assert Clashes(next, entries, peer.entry.id) <==> EntryClashes(pass, entries, peer);
    forall v | v in pass.peer ensures v in next.peer && (Clashes(next, entries, v) <==> Clashes(pass, entries, v)) {
      SameClash(pass, next, entries, v);
    }
  }

  /** Every entry of the peer in turn. */
  method WalkPeerEntries(m: Mirror, pass: Pass, placed: seq<Placed>) returns (ok: bool)
    requires Walkable(m.groups, pass.root)
    requires DistinctEntries(placed) && pass.peer == Index(placed)
    modifies m`entries, m`tombstones, m`conflicts, m`mutationSeq
    ensures ok <==> Commits(pass, old(m.entries))
    ensures ok ==> TablesOf(m) == Walked(pass, m.groups, old(TablesOf(m)))
    ensures ok ==> m.mutationSeq >= old(m.mutationSeq)
    ensures ok ==> (m.mutationSeq == old(m.mutationSeq) <==> QuietWalk(pass, m.groups, old(m.entries)))
  {
    ghost var start := TablesOf(m);
    ghost var quiet := true;
    NothingWalked(pass, placed, m.groups, start);
    for i := 0 to |placed|
      invariant m.mutationSeq >= old(m.mutationSeq) && (quiet <==> m.mutationSeq == old(m.mutationSeq))
      invariant WalkedTo(pass, placed, i, m.groups, start, TablesOf(m), quiet)
    {
      if EntryClashes(pass, m.entries, placed[i]) {
        NextFails(pass, placed, i, m.groups, start);
      } else {
        NextWalked(pass, placed, i, m.groups, start, TablesOf(m), quiet);
      }
      quiet := quiet && !EntryWrites(pass, m.groups, m.entries, placed[i]);
      ok := ReconcilePeerEntry(m, pass, placed[i]);
      if !ok {
        return;
      }
    }
    AllWalked(pass, placed, m.groups, start, TablesOf(m), quiet);
    ok := true;
  }

  /** The first `n` entries have been walked and left the tables at `now`; `quiet` says
      that they wrote nothing. */
  ghost predicate WalkedTo(pass: Pass, placed: seq<Placed>, n: nat, groups: map<Uuid, GroupRow>, start: EntryTables, now: EntryTables, quiet: bool)
    requires n <= |placed|
  {
    && now == Walked(Upto(pass, placed, n), groups, start)
    && (quiet <==> QuietWalk(Upto(pass, placed, n), groups, start.entries))
    && Commits(Upto(pass, placed, n), start.entries)
  }

  lemma NextWalked(pass: Pass, placed: seq<Placed>, i: nat, groups: map<Uuid, GroupRow>, start: EntryTables, now: EntryTables, quiet: bool)
    requires i < |placed| && DistinctEntries(placed)
    requires WalkedTo(pass, placed, i, groups, start, now, quiet) && !EntryClashes(pass, now.entries, placed[i])
    ensures WalkedTo(pass, placed, i + 1, groups, start, OneEntry(pass, groups, now, placed[i]),
                     quiet && !EntryWrites(pass, groups, now.entries, placed[i]))
  {
    StepTables(pass, placed, i, groups, start);
    StepQuiet(pass, placed, i, groups, start);
    StepCommits(pass, placed, i, groups, start);
  }

  lemma NextFails(pass: Pass, placed: seq<Placed>, i: nat, groups: map<Uuid, GroupRow>, start: EntryTables)
    requires i < |placed| && DistinctEntries(placed) && pass.peer == Index(placed)
    requires EntryClashes(pass, Walked(Upto(pass, placed, i), groups, start).entries, placed[i])
    ensures !Commits(pass, start.entries)
  {
    StepCommits(pass, placed, i, groups, start);
    FailsEarly(pass, placed, i + 1, start.entries);
  }

  lemma AllWalked(pass: Pass, placed: seq<Placed>, groups: map<Uuid, GroupRow>, start: EntryTables, now: EntryTables, quiet: bool)
    requires pass.peer == Index(placed) && WalkedTo(pass, placed, |placed|, groups, start, now, quiet)
    ensures now == Walked(pass, groups, start) && Commits(pass, start.entries) && (quiet <==> QuietWalk(pass, groups, start.entries))
  {
    assert Upto(pass, placed, |placed|) == pass by {
      assert placed[..|placed|] == placed;
    }
  }

  lemma NothingWalked(pass: Pass, placed: seq<Placed>, groups: map<Uuid, GroupRow>, t: EntryTables)
    ensures WalkedTo(pass, placed, 0, groups, t, t, true)
  {
    assert Upto(pass, placed, 0).peer == map[];
  }

  lemma StepTables(pass: Pass, placed: seq<Placed>, i: nat, groups: map<Uuid, GroupRow>, start: EntryTables)
    requires i < |placed| && DistinctEntries(placed)
    ensures OneEntry(pass, groups, Walked(Upto(pass, placed, i), groups, start), placed[i]) == Walked(Upto(pass, placed, i + 1), groups, start)
  {
    UptoStep(pass, placed, i);
    TablesStep(Upto(pass, placed, i), Upto(pass, placed, i + 1), groups, start, placed[i]);
    SameTables(pass, Upto(pass, placed, i), groups, Walked(Upto(pass, placed, i), groups, start), placed[i]);
  }

  lemma StepQuiet(pass: Pass, placed: seq<Placed>, i: nat, groups: map<Uuid, GroupRow>, start: EntryTables)
    requires i < |placed| && DistinctEntries(placed)
    ensures QuietWalk(Upto(pass, placed, i + 1), groups, start.entries) <==>
              QuietWalk(Upto(pass, placed, i), groups, start.entries)
              && !EntryWrites(pass, groups, Walked(Upto(pass, placed, i), groups, start).entries, placed[i])
  {
    UptoStep(pass, placed, i);
    QuietOne(Upto(pass, placed, i), Upto(pass, placed, i + 1), groups, start.entries, placed[i]);
    NotYetWalked(Upto(pass, placed, i), groups, start, placed[i].entry.id);
    SameWrites(pass, Upto(pass, placed, i), groups, Walked(Upto(pass, placed, i), groups, start).entries, start.entries, placed[i]);
  }

  lemma StepCommits(pass: Pass, placed: seq<Placed>, i: nat, groups: map<Uuid, GroupRow>, start: EntryTables)
    requires i < |placed| && DistinctEntries(placed)
    ensures Commits(Upto(pass, placed, i + 1), start.entries) <==>
              Commits(Upto(pass, placed, i), start.entries)
              && !EntryClashes(pass, Walked(Upto(pass, placed, i), groups, start).entries, placed[i])
  {
    UptoStep(pass, placed, i);
    CommitsOne(Upto(pass, placed, i), Upto(pass, placed, i + 1), start.entries, placed[i]);
    NotYetWalked(Upto(pass, placed, i), groups, start, placed[i].entry.id);
    SameClashes(pass, Upto(pass, placed, i), Walked(Upto(pass, placed, i), groups, start).entries, start.entries, placed[i]);
  }

  lemma TablesStep(pass: Pass, next: Pass, groups: map<Uuid, GroupRow>, start: EntryTables, peer: Placed)
    requires OneMore(pass, next, peer.entry.id, peer)
    ensures Walked(next, groups, start) == OneEntry(pass, groups, Walked(pass, groups, start), peer)
  {
    WalkStep(pass, next, groups, start, peer);
    ConflictStep(pass, next, start.conflicts, peer);
  }

  /** A step looks at nothing of the peer but the entry itself. */
  lemma SameTables(pass: Pass, other: Pass, groups: map<Uuid, GroupRow>, t: EntryTables, peer: Placed)
    requires other == pass.(peer := other.peer)
    ensures OneEntry(other, groups, t, peer) == OneEntry(pass, groups, t, peer)
  {
  }

  /** And at nothing of the entries but its row. */
  lemma SameWrites(pass: Pass, other: Pass, groups: map<Uuid, GroupRow>, now: map<Uuid, EntryRow>, entries: map<Uuid, EntryRow>, peer: Placed)
    requires other == pass.(peer := other.peer)
    requires peer.entry.id in now <==> peer.entry.id in entries
    requires peer.entry.id in entries ==> now[peer.entry.id] == entries[peer.entry.id]
    ensures EntryWrites(other, groups, entries, peer) <==> EntryWrites(pass, groups, now, peer)
  {
  }

  lemma SameClashes(pass: Pass, other: Pass, now: map<Uuid, EntryRow>, entries: map<Uuid, EntryRow>, peer: Placed)
    requires other == pass.(peer := other.peer)
    requires peer.entry.id in now <==> peer.entry.id in entries
    ensures EntryClashes(other, entries, peer) <==> EntryClashes(pass, now, peer)
  {
  }

  /** What fails among the first entries fails the pass. */
  lemma FailsEarly(pass: Pass, placed: seq<Placed>, n: nat, entries: map<Uuid, EntryRow>)
    requires n <= |placed| && DistinctEntries(placed) && pass.peer == Index(placed)
    requires !Commits(Upto(pass, placed, n), entries)
    ensures !Commits(pass, entries)
  {
    var early := Upto(pass, placed, n);
    var u :| u in early.peer && Clashes(early, entries, u);
    EarlyEntry(pass, placed, n, u);
    SameClash(pass, early, entries, u);
  }

  lemma EarlyEntry(pass: Pass, placed: seq<Placed>, n: nat, u: Uuid)
    requires n <= |placed| && DistinctEntries(placed) && pass.peer == Index(placed) && u in Upto(pass, placed, n).peer
    ensures u in pass.peer && pass.peer[u] == Upto(pass, placed, n).peer[u]
  {
    IndexMeans(placed[..n]);
    IndexMeans(placed);
    var i :| 0 <= i < n && placed[..n][i].entry.id == u;
    assert placed[i] == placed[..n][i];
  }

  lemma SameClash(pass: Pass, other: Pass, entries: map<Uuid, EntryRow>, u: Uuid)
    requires other == pass.(peer := other.peer) && u in pass.peer && u in other.peer && pass.peer[u] == other.peer[u]
    ensures Clashes(pass, entries, u) <==> Clashes(other, entries, u)
  {
    assert Added(other, u) <==> Added(pass, u);
  }

  // ----- deletions

  ghost predicate NoneDropped(pass: Pass, entries: map<Uuid, EntryRow>) {
    forall u :: u in entries ==> !Dropped(pass, u)
  }

  /** Remove the entries whose deletion by the peer stands, in any order. */
  method ReconcilePeerDeletes(m: Mirror, pass: Pass)
    modifies m`entries, m`mutationSeq
    ensures m.entries == WithoutDropped(pass, old(m.entries))
    ensures m.mutationSeq >= old(m.mutationSeq)
    ensures m.mutationSeq == old(m.mutationSeq) <==> NoneDropped(pass, old(m.entries))
  {
    ghost var before := m.entries;
    var rest := pass.local.Keys;
    while rest != {}
      invariant rest <= pass.local.Keys
      invariant m.entries == map u | u in before && (Dropped(pass, u) ==> u in rest) :: before[u]
      invariant m.mutationSeq >= old(m.mutationSeq)
      invariant m.mutationSeq == old(m.mutationSeq) <==> forall u :: u in before && Dropped(pass, u) ==> u in rest
    {
      var u :| u in rest;
      if u !in pass.peer && u in pass.peerTomb
         && !LiveEditWins(pass.local[u].entry.live.modified, pass.peerTomb[u]) {
        assert Dropped(pass, u);
        m.mutationSeq := m.mutationSeq + if u in m.entries then 1 else 0;
        m.entries := m.entries - {u};
      }
      rest := rest - {u};
    }
  }

  /** The tombstones once the peer's deletions outside `rest` are joined in. */
  ghost function Joined(ours: map<Uuid, Option<int>>, peers: map<Uuid, Option<int>>, live: set<Uuid>, rest: set<Uuid>): map<Uuid, Option<int>> {
    UnionTombstones(ours, peers - rest, live)
  }

  lemma JoinOne(ours: map<Uuid, Option<int>>, peers: map<Uuid, Option<int>>, live: set<Uuid>, rest: set<Uuid>, u: Uuid)
    requires u in rest && rest <= peers.Keys
    ensures var now := Joined(ours, peers, live, rest);
            Joined(ours, peers, live, rest - {u}) ==
            if u in live then now
            else if u in now then now[u := Earliest(now[u], peers[u])]
            else now[u := peers[u]]
    ensures Joined(ours, peers, live, rest).Keys * rest == ours.Keys * rest
    ensures forall v :: v in rest && v in ours ==> Joined(ours, peers, live, rest)[v] == ours[v]
  {
  }

  method UnionPeerTombstones(m: Mirror, peerTomb: map<Uuid, Option<int>>)
    modifies m`tombstones, m`mutationSeq
    ensures m.tombstones == UnionTombstones(old(m.tombstones), peerTomb, m.entries.Keys)
    ensures m.mutationSeq >= old(m.mutationSeq)
    ensures m.mutationSeq == old(m.mutationSeq) <==> m.tombstones == old(m.tombstones)
  {
    ghost var ours := m.tombstones;
    var rest := peerTomb.Keys;
    assert Joined(ours, peerTomb, m.entries.Keys, rest) == ours;
    while rest != {}
      invariant rest <= peerTomb.Keys
      invariant m.tombstones == Joined(ours, peerTomb, m.entries.Keys, rest)
      invariant m.mutationSeq >= old(m.mutationSeq)
      invariant m.mutationSeq == old(m.mutationSeq) <==> m.tombstones == ours
    {
      var u :| u in rest;
      JoinOne(ours, peerTomb, m.entries.Keys, rest, u);
      if u !in m.entries {
        if u !in m.tombstones {
          m.tombstones := m.tombstones[u := peerTomb[u]];
          m.mutationSeq := m.mutationSeq + 1;
        } else if Earliest(m.tombstones[u], peerTomb[u]) != m.tombstones[u] {
          m.tombstones := m.tombstones[u := Earliest(m.tombstones[u], peerTomb[u])];
          m.mutationSeq := m.mutationSeq + 1;
        }
      }
      rest := rest - {u};
    }
    assert peerTomb - {} == peerTomb;
  }

  /** The entry half of a pass: the walk, then the peer's deletions. */
  method ReconcilePeerEntries(m: Mirror, pass: Pass, placed: seq<Placed>) returns (ok: bool)
    requires Walkable(m.groups, pass.root)
    requires DistinctEntries(placed) && pass.peer == Index(placed)
    modifies m`entries, m`tombstones, m`conflicts, m`mutationSeq
    ensures ok <==> Commits(pass, old(m.entries))
    ensures ok ==> m.entries == EntriesAfter(pass, m.groups, old(m.entries))
    ensures ok ==> m.tombstones == TombstonesAfter(pass, m.groups, old(m.entries), old(m.tombstones))
    ensures ok ==> m.conflicts == ConflictsAfter(pass, old(m.conflicts))
    ensures ok ==> m.mutationSeq >= old(m.mutationSeq)
    ensures ok ==> (m.mutationSeq == old(m.mutationSeq) <==> QuietEntries(pass, m.groups, old(m.entries), old(m.tombstones)))
  {
    ok := WalkThenDelete(m, pass, placed);
    if ok {
      UnionPeerTombstones(m, pass.peerTomb);
    }
  }

  /** The walk over the peer's entries, then the entries whose deletion stands. */
  method WalkThenDelete(m: Mirror, pass: Pass, placed: seq<Placed>) returns (ok: bool)
    requires Walkable(m.groups, pass.root)
    requires DistinctEntries(placed) && pass.peer == Index(placed)
    modifies m`entries, m`tombstones, m`conflicts, m`mutationSeq
    ensures ok <==> Commits(pass, old(m.entries))
    ensures ok ==> m.entries == EntriesAfter(pass, m.groups, old(m.entries))
    ensures ok ==> m.tombstones == old(m.tombstones) - Scrubbed(pass)
    ensures ok ==> m.conflicts == ConflictsAfter(pass, old(m.conflicts))
    ensures ok ==> m.mutationSeq >= old(m.mutationSeq)
    ensures ok ==> (m.mutationSeq == old(m.mutationSeq) <==> QuietWalk(pass, m.groups, old(m.entries)) && NoneDropped(pass, old(m.entries)))
  {
    ok := WalkPeerEntries(m, pass, placed);
    if ok {
      AddedNotDropped(pass, m.groups, old(m.entries));
      ReconcilePeerDeletes(m, pass);
    }
  }

  /** Neither the walk nor the peer's deletions write anything. */
  ghost predicate QuietEntries(pass: Pass, groups: map<Uuid, GroupRow>, entries: map<Uuid, EntryRow>, tombstones: map<Uuid, Option<int>>) {
    && QuietWalk(pass, groups, entries)
    && NoneDropped(pass, entries)
    && TombstonesAfter(pass, groups, entries, tombstones) == tombstones - Scrubbed(pass)
  }

  lemma AddedNotDropped(pass: Pass, groups: map<Uuid, GroupRow>, entries: map<Uuid, EntryRow>)
    ensures NoneDropped(pass, WalkedEntries(pass, groups, entries)) <==> NoneDropped(pass, entries)
  {
  }
}
