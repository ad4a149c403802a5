/** A peer pass is handed a projection of the local vault taken before its
    transaction opens. Other connections may write anything in between. */
module StaleProjection {
  import opened Order
  import opened Store
  import opened EntryRules
  import opened BinWalk
  import opened GroupSync
  import opened GroupTombstones
  import opened EntrySync
  import opened PeerEntries
  import opened PeerPass
  import opened PassSoundness

  // ----- one entry both sides hold

  /** Everything an edit writes but the entry's place: the live version, the
      history, and the history's tombstones. */
  predicate SameContents(a: EntryRow, b: EntryRow) {
    a.entry.live == b.entry.live && a.entry.history == b.entry.history && a.entry.historyTombstones == b.entry.historyTombstones
  }

  /** The pass leaves the contents of the shared entry's row alone. */
  predicate Spares(rules: Rules, local: Entry, peer: Entry) {
    !Overwrites(rules, local, peer) && Rewritten(rules, local, peer).None?
  }

  /** Whatever another connection wrote survives the pass exactly if the verdict
      does not overwrite and no history is folded; otherwise some edit is lost. */
  lemma EditSurvivesExactly(rules: Rules, groups: map<Uuid, GroupRow>, local: Entry, peer: Placed)
    ensures (forall row :: SameContents(SharedRow(rules, groups, row, local, peer), row)) <==> Spares(rules, local, peer.entry)
  {
    if !Spares(rules, local, peer.entry) {
      var edited := EditThatIsLost(rules, groups, EntryRow(peer.group, false, local), local, peer);
    } else {
      forall row ensures SameContents(SharedRow(rules, groups, row, local, peer), row) {
        ContentsAfter(rules, groups, row, local, peer);
      }
    }
  }

  /** Any row of the entry can be edited so that the edit is lost. */
  lemma EditThatIsLost(rules: Rules, groups: map<Uuid, GroupRow>, row: EntryRow, local: Entry, peer: Placed) returns (edited: EntryRow)
    requires !Spares(rules, local, peer.entry)
    ensures edited.group == row.group && edited.entry.id == row.entry.id
    ensures !SameContents(SharedRow(rules, groups, edited, local, peer), edited)
  {
    if Overwrites(rules, local, peer.entry) {
      edited := LiveEditIsLost(rules, groups, row, local, peer);
    } else {
      var v;
      edited, v := ArchivedVersionIsLost(rules, groups, row, local, peer);
    }
  }

  /** Where the contents of the row come from: the verdict, then the fold. */
  lemma ContentsAfter(rules: Rules, groups: map<Uuid, GroupRow>, row: EntryRow, local: Entry, peer: Placed)
    ensures var verdict, after := ApplyVerdict(rules, row, local, peer.entry).row, SharedRow(rules, groups, row, local, peer);
            && after.entry.live == verdict.entry.live
            && (!Overwrites(rules, local, peer.entry) ==> verdict == row)
            && match Rewritten(rules, local, peer.entry)
               case None => after.entry.history == verdict.entry.history && after.entry.historyTombstones == verdict.entry.historyTombstones
               case Some(f) => after.entry.history == f.history && after.entry.historyTombstones == f.tombstones
  {
  }

  /** An overwriting pass gives the same live version whatever the row held. */
  lemma LivePartIsFixed(rules: Rules, groups: map<Uuid, GroupRow>, a: EntryRow, b: EntryRow, local: Entry, peer: Placed)
    requires Overwrites(rules, local, peer.entry)
    ensures SharedRow(rules, groups, a, local, peer).entry.live == SharedRow(rules, groups, b, local, peer).entry.live
  {
    ContentsAfter(rules, groups, a, local, peer);
    ContentsAfter(rules, groups, b, local, peer);
  }

  lemma LiveEditIsLost(rules: Rules, groups: map<Uuid, GroupRow>, row: EntryRow, local: Entry, peer: Placed) returns (edited: EntryRow)
    requires Overwrites(rules, local, peer.entry)
    ensures edited == row.(entry := row.entry.(live := edited.entry.live))
    ensures SharedRow(rules, groups, edited, local, peer).entry.live != edited.entry.live
  {
    var after := SharedRow(rules, groups, row, local, peer).entry.live;
    edited := row.(entry := row.entry.(live := after.(title := after.title + "!")));
    LivePartIsFixed(rules, groups, row, edited, local, peer);
  }

  /** A fold is computed from the projected histories: a version archived in between
      is gone after it, together with any edit that archived it, whether or not the
      live version survives. */
  lemma ArchivedVersionIsLost(rules: Rules, groups: map<Uuid, GroupRow>, row: EntryRow, local: Entry, peer: Placed)
      returns (edited: EntryRow, v: Version)
    requires Rewritten(rules, local, peer.entry).Some?
    ensures edited == row.(entry := row.entry.(history := row.entry.history + [v]))
    ensures v !in SharedRow(rules, groups, edited, local, peer).entry.history
  {
    v := NotAmong(Rewritten(rules, local, peer.entry).value.history);
    edited := row.(entry := row.entry.(history := row.entry.history + [v]));
    ContentsAfter(rules, groups, edited, local, peer);
    assert edited.entry.history[|row.entry.history|] == v;
  }

  function Titled(title: string): Version {
    Version(title, "", "", "", "", [], [], [], 0, None)
  }

  function Longest(versions: seq<Version>): nat {
    if versions == [] then 0
    else
      var rest := Longest(versions[1..]);
      if |versions[0].title| > rest then |versions[0].title| else rest
  }

  /** Some version is not in a given history. */
  lemma NotAmong(versions: seq<Version>) returns (v: Version)
    ensures v !in versions
  {
    v := Titled(seq(Longest(versions) + 1, i => 'x'));
    LongerThanAll(versions);
  }

  lemma {:induction false} LongerThanAll(versions: seq<Version>)
    ensures forall v :: v in versions ==> |v.title| <= Longest(versions)
  {
    if versions != [] {
      LongerThanAll(versions[1..]);
      forall v | v in versions ensures |v.title| <= Longest(versions) {
        assert v == versions[0] || v in versions[1..];
      }
    }
  }

  // ----- a case of each kind

  /** A merge library that finds everything in sync and unites histories. */
  function UnitingBrain(): Brain {
    Brain((a: Entry, b: Entry) => InSync,
          (a: Entry, b: Entry) => Folded(true, a.history + b.history, None),
          (a: Entry, b: Entry) => Folded(false, a.history, None),
          (h: seq<Version>) => 0,
          (a: Meta, b: Meta) => a)
  }

  /** Both sides hold the version "now" and the peer has one more record. In between
      a save here replaces "now" by "next" and archives "now". The verdict does not
      overwrite, "next" survives, and "now" is gone. */
  lemma InSyncPassLosesArchivedVersion(groups: map<Uuid, GroupRow>)
    ensures var rules := Rules(UnitingBrain(), 0, map[], map[]);
            var local := Entry(1, Titled("now"), [], None, None, None, []);
            var peer := Placed(local.(history := [Titled("old")]), 0);
            var row := EntryRow(0, false, local.(live := Titled("next"), history := [Titled("now")]));
            var after := SharedRow(rules, groups, row, local, peer);
            && !Overwrites(rules, local, peer.entry)
            && after.entry.live == Titled("next") && after.entry.history == [Titled("old")]
            && Titled("now") !in after.entry.history
  {
    var rules := Rules(UnitingBrain(), 0, map[], map[]);
    var local := Entry(1, Titled("now"), [], None, None, None, []);
    var peer := Placed(local.(history := [Titled("old")]), 0);
    var row := EntryRow(0, false, local.(live := Titled("next"), history := [Titled("now")]));
    assert [] + [Titled("old")] == [Titled("old")];
    assert Titled("old").title[0] != Titled("now").title[0];
    ContentsAfter(rules, groups, row, local, peer);
  }

  // ----- the place

  /** The entry's place is not taken from the projection: unless the verdict adopts,
      the pass joins the peer's with the one the row has by then. */
  lemma PlaceIsCurrent(rules: Rules, groups: map<Uuid, GroupRow>, row: EntryRow, local: Entry, peer: Placed)
    requires !Overwrites(rules, local, peer.entry) && peer.group in groups
    ensures RowLocation(SharedRow(rules, groups, row, local, peer)) == Later(RowLocation(row), LocationOf(peer.entry, peer.group))
  {
    FloorIdempotent(peer.entry.locationChanged);
  }

  // ----- the whole pass

  /** Tables the transaction may find, whatever was written since the projection,
      and commit on. A pass that does not commit changes nothing. */
  ghost predicate MayFind(pass: Pass, t: Tables, root: Uuid) {
    Standing(t, root) && Commits(pass, t.entries)
  }

  /** A row is as it was, except that one both sides hold goes to the peer's place, with
      its contents, if that is strictly later than its own. */
  ghost predicate RowKept(pass: Pass, u: Uuid, row: EntryRow, after: EntryRow) {
    if u in pass.local && u in pass.peer && CompareLocations(LocationOf(pass.peer[u].entry, pass.peer[u].group), RowLocation(row)) == Greater
    then SameContents(after, row) && RowLocation(after) == LocationOf(pass.peer[u].entry, pass.peer[u].group)
    else after == row
  }

  ghost predicate RowsKept(pass: Pass, t: Tables, after: Tables) {
    forall u :: u in t.entries ==> u in after.entries && RowKept(pass, u, t.entries[u], after.entries[u])
  }

  /** Of the entries the projection has, every verdict spares the contents and every
      deletion by the peer is beaten by the projected stamp. */
  ghost predicate SparesRows(pass: Pass) {
    forall u :: u in pass.local ==> SparesRow(pass, u)
  }

  ghost predicate SparesRow(pass: Pass, u: Uuid)
    requires u in pass.local
  {
    if u in pass.peer then Spares(pass.rules, pass.local[u].entry, pass.peer[u].entry)
    else u in pass.peerTomb ==> LiveEditWins(pass.local[u].entry.live.modified, pass.peerTomb[u])
  }

  /** Settings and the flags of the groups there were are as they were. */
  ghost predicate SettingsKept(t: Tables, after: Tables) {
    && after.settings == t.settings
    && forall u :: u in t.groups && u in after.groups ==> after.groups[u].isRecycleBin == t.groups[u].isRecycleBin
  }

  /** The recorded deletion of `u` stands against the peer's copy, if there is one. */
  ghost predicate DeletionStands(pass: Pass, t: Tables, u: Uuid)
    requires u in t.tombstones
  {
    u in pass.peer ==> !LiveEditWins(pass.peer[u].entry.live.modified, t.tombstones[u])
  }

  /** `u` is not live, and unless it is a group that was kept its deletion is on record,
      joined with the peer's. */
  ghost predicate DeletionKept(pass: Pass, t: Tables, after: Tables, u: Uuid)
    requires u in t.tombstones
  {
    && u !in after.entries
    && (u !in after.groups ==>
          u in after.tombstones
          && after.tombstones[u] == if u in pass.peerTomb then Earliest(t.tombstones[u], pass.peerTomb[u]) else t.tombstones[u])
  }

  /** Every deletion that is recorded by now, and stands against the peer's copy, is
      kept: whenever it was recorded, and whether or not the projection had another. */
  ghost predicate DeletionsKept(pass: Pass, t: Tables, after: Tables) {
    forall u :: u in t.tombstones && u !in t.entries && DeletionStands(pass, t, u) ==> DeletionKept(pass, t, after, u)
  }

  /** Every entry the peer holds, the projection has too, or as deleted with a time that
      stands against the peer's copy. */
  ghost predicate AddsNothing(pass: Pass) {
    forall u {:trigger pass.peer[u]} :: u in pass.peer ==>
      u in pass.local || (u in pass.localTomb && !LiveEditWins(pass.peer[u].entry.live.modified, pass.localTomb[u]))
  }

  lemma RowsKeptWhenSpared(t: Tables, local: Vault, peer: Vault, brain: Brain, owner: string, latest: int)
    requires var pass := StartPass(brain, owner, latest, local, peer);
             ValidVault(peer) && SparesRows(pass) && MayFind(pass, t, peer.root.id)
    ensures RowsKept(StartPass(brain, owner, latest, local, peer), t, PeerPass.PeerPass(brain, owner, latest, t, local, peer))
  {
    var pass, groups := StartPass(brain, owner, latest, local, peer), MergedTree(t, peer);
    var after := EntriesAfter(pass, groups, t.entries);
    forall u | u in t.entries ensures u in after && RowKept(pass, u, t.entries[u], after[u]) {
      RowAfter(pass, groups, t.entries, u);
      assert u in pass.local ==> SparesRow(pass, u);
      if u in pass.local && u in pass.peer {
        GroupOfPeer(t, peer, u);
        SparedRow(pass.rules, groups, t.entries[u], pass.local[u].entry, pass.peer[u]);
      }
    }
  }

  /** A spared row changes at most its place. */
  lemma SparedRow(rules: Rules, groups: map<Uuid, GroupRow>, row: EntryRow, local: Entry, peer: Placed)
    requires Spares(rules, local, peer.entry) && peer.group in groups
    ensures var after := SharedRow(rules, groups, row, local, peer);
            if CompareLocations(LocationOf(peer.entry, peer.group), RowLocation(row)) == Greater
            then SameContents(after, row) && RowLocation(after) == LocationOf(peer.entry, peer.group)
            else after == row
  {
    VerdictParts(rules, row, local, peer.entry);
    FloorIdempotent(peer.entry.locationChanged);
    assert SharedRow(rules, groups, row, local, peer) == WithLocation(groups, row, peer);
  }

  /** Tables that lose a row, from any with the entries of the projection. */
  lemma RowThatIsLost(t: Tables, local: Vault, peer: Vault, brain: Brain, owner: string, latest: int) returns (found: Tables)
    requires var pass := StartPass(brain, owner, latest, local, peer);
             MayFind(pass, t, peer.root.id) && t.entries.Keys == pass.local.Keys && !SparesRows(pass)
    ensures MayFind(StartPass(brain, owner, latest, local, peer), found, peer.root.id)
    ensures !RowsKept(StartPass(brain, owner, latest, local, peer), found, PeerPass.PeerPass(brain, owner, latest, found, local, peer))
  {
    var pass, groups := StartPass(brain, owner, latest, local, peer), MergedTree(t, peer);
    var u :| u in pass.local && !SparesRow(pass, u);
    var row := EditedRow(pass, groups, t.entries, u);
    found := t.(entries := t.entries[u := row]);
    EditedMayBeFound(pass, t, peer.root.id, u, row);
    assert PeerPass.PeerPass(brain, owner, latest, found, local, peer).entries == EntriesAfter(pass, groups, t.entries[u := row]);
  }

  lemma EditedMayBeFound(pass: Pass, t: Tables, root: Uuid, u: Uuid, row: EntryRow)
    requires MayFind(pass, t, root) && u in t.entries && row.group == t.entries[u].group
    ensures MayFind(pass, t.(entries := t.entries[u := row]), root)
  {
    assert t.entries[u := row].Keys == t.entries.Keys;
    SameKeysCommit(pass, t.entries, t.entries[u := row]);
  }

  /** A row for an entry that is not spared, whose contents the pass does not keep. */
  lemma EditedRow(pass: Pass, groups: map<Uuid, GroupRow>, entries: map<Uuid, EntryRow>, u: Uuid) returns (row: EntryRow)
    requires Commits(pass, entries) && u in pass.local && u in entries && !SparesRow(pass, u)
    ensures row.group == entries[u].group
    ensures var after := EntriesAfter(pass, groups, entries[u := row]); !(u in after && RowKept(pass, u, row, after[u]))
  {
    row := entries[u];
    if u in pass.peer {
      row := EditThatIsLost(pass.rules, groups, entries[u], pass.local[u].entry, pass.peer[u]);
    } else {
      assert Dropped(pass, u);
    }
    SameKeysCommit(pass, entries, entries[u := row]);
    RowAfter(pass, groups, entries[u := row], u);
  }

  lemma SameKeysCommit(pass: Pass, entries: map<Uuid, EntryRow>, others: map<Uuid, EntryRow>)
    requires entries.Keys == others.Keys && Commits(pass, entries)
    ensures Commits(pass, others)
  {
    forall u | u in pass.peer ensures !Clashes(pass, others, u) {
      assert !Clashes(pass, entries, u);
    }
  }

  /** Every row survives whatever was written to it, exactly if the pass spares the
      rows of its projection. */
  lemma RowsSurviveExactly(t: Tables, local: Vault, peer: Vault, brain: Brain, owner: string, latest: int)
    requires var pass := StartPass(brain, owner, latest, local, peer);
             ValidVault(peer) && MayFind(pass, t, peer.root.id) && t.entries.Keys == pass.local.Keys
    ensures var pass := StartPass(brain, owner, latest, local, peer);
            (forall found :: MayFind(pass, found, peer.root.id) ==> RowsKept(pass, found, PeerPass.PeerPass(brain, owner, latest, found, local, peer)))
              <==> SparesRows(pass)
  {
    var pass := StartPass(brain, owner, latest, local, peer);
    if SparesRows(pass) {
      forall found | MayFind(pass, found, peer.root.id)
        ensures RowsKept(pass, found, PeerPass.PeerPass(brain, owner, latest, found, local, peer))
      {
        RowsKeptWhenSpared(found, local, peer, brain, owner, latest);
      }
    } else {
      var found := RowThatIsLost(t, local, peer, brain, owner, latest);
    }
  }

  /** Settings and bin survive whatever they were set to, exactly if nothing of the
      peer's won over the projected ones. */
  lemma SettingsSurviveExactly(t: Tables, local: Vault, peer: Vault, brain: Brain, owner: string, latest: int)
    requires MayFind(StartPass(brain, owner, latest, local, peer), t, peer.root.id)
    ensures var pass := StartPass(brain, owner, latest, local, peer);
            (forall found :: MayFind(pass, found, peer.root.id) ==> SettingsKept(found, PeerPass.PeerPass(brain, owner, latest, found, local, peer)))
              <==> brain.mergeMeta(local.meta, peer.meta) == local.meta
  {
    var pass, merged := StartPass(brain, owner, latest, local, peer), brain.mergeMeta(local.meta, peer.meta);
    if merged == local.meta {
      forall found | MayFind(pass, found, peer.root.id)
        ensures SettingsKept(found, PeerPass.PeerPass(brain, owner, latest, found, local, peer))
      {
        FlagsAfter(found, local, peer, brain, owner, latest);
      }
    } else {
      var found := SettingsThatAreLost(t, local, peer, brain, owner, latest);
    }
  }

  /** Any settings can be changed so that the change is lost. */
  lemma SettingsThatAreLost(t: Tables, local: Vault, peer: Vault, brain: Brain, owner: string, latest: int) returns (found: Tables)
    requires MayFind(StartPass(brain, owner, latest, local, peer), t, peer.root.id)
    requires brain.mergeMeta(local.meta, peer.meta) != local.meta
    ensures MayFind(StartPass(brain, owner, latest, local, peer), found, peer.root.id)
    ensures found == t.(settings := t.settings.(databaseName := found.settings.databaseName))
    ensures PeerPass.PeerPass(brain, owner, latest, found, local, peer).settings.databaseName != found.settings.databaseName
  {
    var merged := brain.mergeMeta(local.meta, peer.meta).settings;
    found := t.(settings := t.settings.(databaseName := merged.databaseName + "!"));
    assert Standing(found, peer.root.id);
  }

  /** Every deletion on record is kept, exactly if the pass adds nothing. */
  lemma DeletionsSurviveExactly(t: Tables, local: Vault, peer: Vault, brain: Brain, owner: string, latest: int)
    requires MayFind(StartPass(brain, owner, latest, local, peer), t, peer.root.id)
    ensures var pass := StartPass(brain, owner, latest, local, peer);
            (forall found :: MayFind(pass, found, peer.root.id) ==>
               DeletionsKept(pass, found, PeerPass.PeerPass(brain, owner, latest, found, local, peer)))
              <==> AddsNothing(pass)
  {
    var pass := StartPass(brain, owner, latest, local, peer);
    if AddsNothing(pass) {
      forall found | MayFind(pass, found, peer.root.id)
        ensures DeletionsKept(pass, found, PeerPass.PeerPass(brain, owner, latest, found, local, peer))
      {
        forall u | u in found.tombstones && u !in found.entries
          ensures DeletionKept(pass, found, PeerPass.PeerPass(brain, owner, latest, found, local, peer), u)
        {
          DeletionStays(found, local, peer, brain, owner, latest, u);
        }
      }
    } else {
      var u :| u in pass.peer && !(u in pass.local || (u in pass.localTomb && !LiveEditWins(pass.peer[u].entry.live.modified, pass.localTomb[u])));
      var found := DeletionThatIsUndone(t, local, peer, brain, owner, latest, u);
    }
  }

  /** A pass that adds nothing keeps every deletion, standing or not. */
  lemma DeletionStays(t: Tables, local: Vault, peer: Vault, brain: Brain, owner: string, latest: int, u: Uuid)
    requires var pass := StartPass(brain, owner, latest, local, peer);
             Commits(pass, t.entries) && AddsNothing(pass) && u in t.tombstones && u !in t.entries
    ensures DeletionKept(StartPass(brain, owner, latest, local, peer), t, PeerPass.PeerPass(brain, owner, latest, t, local, peer), u)
  {
    var pass := StartPass(brain, owner, latest, local, peer);
    RowAfter(pass, MergedTree(t, peer), t.entries, u);
    assert !Added(pass, u);
    GroupsAfter(t, local, peer, brain, owner, latest);
  }

  /** The dated deletion that stands against a version: as late as the edit. */
  function DeletionAgainst(edit: Option<int>): Option<int> {
    if edit.Some? then edit else Some(0)
  }

  /** An entry that the pass adds comes in whatever was recorded since. A deletion that
      stands against the peer's copy, and keeps it out over a current projection, is
      undone: if the projection had the entry as deleted its record is removed too, and
      otherwise the entry is live beside it. */
  lemma DeletionThatIsUndone(t: Tables, local: Vault, peer: Vault, brain: Brain, owner: string, latest: int, u: Uuid) returns (found: Tables)
    requires var pass := StartPass(brain, owner, latest, local, peer); MayFind(pass, t, peer.root.id) && Added(pass, u)
    ensures var pass, after := StartPass(brain, owner, latest, local, peer), PeerPass.PeerPass(brain, owner, latest, found, local, peer);
            && MayFind(pass, found, peer.root.id)
            && found == t.(tombstones := t.tombstones[u := DeletionAgainst(pass.peer[u].entry.live.modified)])
            && DeletionStands(pass, found, u) && u !in found.entries
            && u in after.entries && !DeletionsKept(pass, found, after)
            && (u in pass.localTomb ==> u !in after.tombstones)
            && (u !in pass.localTomb && u !in MergedTree(found, peer) ==> u in after.tombstones)
  {
    var pass := StartPass(brain, owner, latest, local, peer);
    found := t.(tombstones := t.tombstones[u := DeletionAgainst(pass.peer[u].entry.live.modified)]);
    assert Standing(found, peer.root.id) && !Clashes(pass, t.entries, u);
    RowAfter(pass, MergedTree(found, peer), found.entries, u);
    GroupsAfter(found, local, peer, brain, owner, latest);
    assert !DeletionKept(pass, found, PeerPass.PeerPass(brain, owner, latest, found, local, peer), u);
  }

  /** Had the pass been given a projection with that record, it would not add the
      entry. */
  lemma KeptOutByCurrent(pass: Pass, current: Pass, t: Tables, u: Uuid)
    requires current == pass.(localTomb := current.localTomb) && u in t.tombstones && u in current.localTomb
    requires current.localTomb[u] == t.tombstones[u] && u in pass.peer && DeletionStands(pass, t, u)
    ensures !Added(current, u)
  {
  }

  /** Nothing of what other connections wrote since the projection is lost: neither a
      row's contents, nor a deletion, nor the settings. */
  ghost predicate NothingLost(pass: Pass, t: Tables, after: Tables) {
    RowsKept(pass, t, after) && DeletionsKept(pass, t, after) && SettingsKept(t, after)
  }

  /** Whatever was written since the projection survives the whole pass, exactly if
      the projected vault and the peer's meet these conditions, which can be checked
      before the transaction opens. */
  lemma NothingIsLostExactly(t: Tables, local: Vault, peer: Vault, brain: Brain, owner: string, latest: int)
    requires var pass := StartPass(brain, owner, latest, local, peer);
             ValidVault(peer) && MayFind(pass, t, peer.root.id) && t.entries.Keys == pass.local.Keys
    ensures var pass := StartPass(brain, owner, latest, local, peer);
            (forall found :: MayFind(pass, found, peer.root.id) ==>
               NothingLost(pass, found, PeerPass.PeerPass(brain, owner, latest, found, local, peer)))
              <==> SparesRows(pass) && AddsNothing(pass) && brain.mergeMeta(local.meta, peer.meta) == local.meta
  {
    RowsSurviveExactly(t, local, peer, brain, owner, latest);
    DeletionsSurviveExactly(t, local, peer, brain, owner, latest);
    SettingsSurviveExactly(t, local, peer, brain, owner, latest);
  }

  /** An edit made since the projection, later than the peer's deletion, is deleted
      exactly if the projected edit was not later. */
  lemma NewerEditIsDeleted(pass: Pass, groups: map<Uuid, GroupRow>, entries: map<Uuid, EntryRow>, u: Uuid)
    requires Commits(pass, entries) && u in entries && u in pass.local && u !in pass.peer && u in pass.peerTomb
    requires LiveEditWins(entries[u].entry.live.modified, pass.peerTomb[u])
    ensures u !in EntriesAfter(pass, groups, entries) <==> !LiveEditWins(pass.local[u].entry.live.modified, pass.peerTomb[u])
  {
    RowAfter(pass, groups, entries, u);
  }

  /** What never is lost: groups, icons and other owners' conflict rows are read anew,
      and no group goes without a deletion on record. */
  lemma ReadAnew(t: Tables, local: Vault, peer: Vault, brain: Brain, owner: string, latest: int)
    ensures var after := PeerPass.PeerPass(brain, owner, latest, t, local, peer);
            && (forall u :: u in after.groups ==> u in MergedTree(t, peer) && Agree(after.groups[u], MergedTree(t, peer)[u]))
            && (forall u :: u in t.groups && u !in after.groups ==> u in after.tombstones)
            && (forall u :: u in t.icons ==> u in after.icons && after.icons[u] == t.icons[u])
            && (forall k: Owned :: k.owner != owner ==> (k in after.conflicts <==> k in t.conflicts))
            && (forall k: Owned :: k.owner != owner && k in t.conflicts ==> after.conflicts[k] == t.conflicts[k])
  {
    GroupsAfter(t, local, peer, brain, owner, latest);
    GoneAreTombstoned(MergedTree(t, peer), PeerPass.PeerPass(brain, owner, latest, t, local, peer).entries,
                      JoinedTombstones(StartPass(brain, owner, latest, local, peer), t, peer));
  }

  /** The peer's own conflict rows are rewritten by the projection's verdicts: a row
      for an entry both hold is there afterwards exactly if that verdict holds the
      conflict open, even if it was dissolved since. */
  lemma OwnRowsRewritten(t: Tables, local: Vault, peer: Vault, brain: Brain, owner: string, latest: int, u: Uuid)
    requires var pass := StartPass(brain, owner, latest, local, peer); u in pass.local && u in pass.peer
    ensures var pass, after := StartPass(brain, owner, latest, local, peer), PeerPass.PeerPass(brain, owner, latest, t, local, peer);
            && (Owned(owner, u) in after.conflicts <==> HeldOpen(pass.rules, pass.local[u].entry, pass.peer[u].entry))
            && (Owned(owner, u) in after.conflicts ==> after.conflicts[Owned(owner, u)] == pass.peer[u].entry)
  {
  }

  /** So they survive whatever was done to them, exactly if the two vaults share no
      entry. */
  lemma ConflictRowsSurviveExactly(t: Tables, local: Vault, peer: Vault, brain: Brain, owner: string, latest: int)
    requires MayFind(StartPass(brain, owner, latest, local, peer), t, peer.root.id)
    ensures var pass := StartPass(brain, owner, latest, local, peer);
            (forall found :: MayFind(pass, found, peer.root.id) ==>
               PeerPass.PeerPass(brain, owner, latest, found, local, peer).conflicts == found.conflicts)
              <==> pass.local.Keys !! pass.peer.Keys
  {
    var pass := StartPass(brain, owner, latest, local, peer);
    if pass.local.Keys !! pass.peer.Keys {
      forall found | MayFind(pass, found, peer.root.id)
        ensures PeerPass.PeerPass(brain, owner, latest, found, local, peer).conflicts == found.conflicts
      {
        NothingShared(pass, found.conflicts);
      }
    } else {
      var u :| u in pass.local && u in pass.peer;
      var found := RowRewritten(t, local, peer, brain, owner, latest, u);
    }
  }

  lemma NothingShared(pass: Pass, conflicts: map<Owned, Entry>)
    requires pass.local.Keys !! pass.peer.Keys
    ensures ConflictsAfter(pass, conflicts) == conflicts
  {
    assert pass.peer.Keys * pass.local.Keys == {};
    assert ParkedBy(pass) == map[];
  }

  /** A row that is there and goes, or is not there and comes. */
  lemma RowRewritten(t: Tables, local: Vault, peer: Vault, brain: Brain, owner: string, latest: int, u: Uuid) returns (found: Tables)
    requires var pass := StartPass(brain, owner, latest, local, peer);
             MayFind(pass, t, peer.root.id) && u in pass.local && u in pass.peer
    ensures MayFind(StartPass(brain, owner, latest, local, peer), found, peer.root.id)
    ensures PeerPass.PeerPass(brain, owner, latest, found, local, peer).conflicts != found.conflicts
  {
    var pass := StartPass(brain, owner, latest, local, peer);
    var k := Owned(owner, u);
    var open := HeldOpen(pass.rules, pass.local[u].entry, pass.peer[u].entry);
    found := t.(conflicts := if open then t.conflicts - {k} else t.conflicts[k := pass.peer[u].entry]);
    OwnRowsRewritten(found, local, peer, brain, owner, latest, u);
    assert k in found.conflicts <==> !open;
    assert Standing(found, peer.root.id);
  }
}
