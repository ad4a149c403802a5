/** What an exchange makes of the contents of an entry both replicas hold. */
module ExchangedContents {
  import opened Order
  import opened Store
  import opened EntryRules
  import opened GroupSync
  import opened EntrySync
  import opened PeerPass
  import opened Exchange

  /** The two merge libraries give one pair of entries alike verdicts: in sync only
      for one version; a merge that comes to one version on both sides, each with
      its own side's stamp; or a conflict on both. */
  ghost predicate AlikeVerdicts(brainA: Brain, brainB: Brain, a: Entry, b: Entry) {
    match (brainA.classify(a, b), brainB.classify(b, a))
    case (InSync, InSync) => SameVersion(a.live, b.live)
    case (AutoMerged(mergedA, _), AutoMerged(mergedB, _)) =>
      SameVersion(mergedA.live, mergedB.live) && mergedA.live.modified == a.live.modified && mergedB.live.modified == b.live.modified
    case (Conflict, Conflict) => true
    case _ => false
  }

  /** The row is what `e` was projected from: its stamp may have a fraction. */
  ghost predicate Shows(row: EntryRow, e: Entry) {
    SameVersion(row.entry.live, e.live) && FloorOption(row.entry.live.modified) == e.live.modified
  }

  /** The same version, stamped in the same second. */
  ghost predicate Agreed(a: Version, b: Version) {
    SameVersion(a, b) && FloorOption(a.modified) == FloorOption(b.modified)
  }

  /** Whether local takes anything over, and whether attachments are in it. */
  function Takes(v: Verdict): bool {
    v.AutoMerged? && v.changes != []
  }

  /** An auto-merge leaves the merged version with the merged stamp. */
  lemma MergedLive(rules: Rules, groups: map<Uuid, GroupRow>, row: EntryRow, local: Entry, peer: Placed)
    requires rules.brain.classify(local, peer.entry).AutoMerged?
    ensures var verdict, live := rules.brain.classify(local, peer.entry), SharedRow(rules, groups, row, local, peer).entry.live;
            && SameVersion(live, verdict.merged.live)
            && live.modified == MergedTime(verdict.merged.live, MovesLocal(local.live, verdict.merged.live, Takes(verdict)),
                                           local.live, peer.entry.live, rules.latest)
  {
  }

  lemma InSyncLive(rules: Rules, groups: map<Uuid, GroupRow>, row: EntryRow, local: Entry, peer: Placed)
    requires rules.brain.classify(local, peer.entry).InSync?
    ensures SharedRow(rules, groups, row, local, peer).entry.live == row.entry.live
  {
  }

  /** A shared entry of an exchange, seen from both sides. */
  ghost predicate Shared(r: Replicas, brainA: Brain, brainB: Brain, u: Uuid) {
    && Ready(r) && u in r.ta.entries && u in r.tb.entries
    && u in Index(CollectEntries(r.va.root)) && u in Index(CollectEntries(r.vb.root))
    && AlikeVerdicts(brainA, brainB, EntryA(r, u), EntryB(r, u))
  }

  /** Both rows are what the vaults show of them. */
  lemma RowsShow(r: Replicas, u: Uuid)
    requires Ready(r) && u in r.ta.entries && u in r.tb.entries
    requires u in Index(CollectEntries(r.va.root)) && u in Index(CollectEntries(r.vb.root))
    ensures Shows(r.ta.entries[u], EntryA(r, u)) && Shows(r.tb.entries[u], EntryB(r, u))
    ensures Whole(EntryA(r, u).live.modified) && Whole(EntryB(r, u).live.modified)
  {
    EditIsWhole(r.va, u);
    EditIsWhole(r.vb, u);
    assert Stands(r.ta.entries[u], Index(CollectEntries(r.va.root))[u]) && Stands(r.tb.entries[u], Index(CollectEntries(r.vb.root))[u]);
    StandingShows(r.ta.entries[u], EntryA(r, u));
    StandingShows(r.tb.entries[u], EntryB(r, u));
  }

  lemma StandingShows(row: EntryRow, e: Entry)
    requires Resembles(row.entry, e) && Whole(e.live.modified)
    ensures Shows(row, e)
  {
  }

  function EntryA(r: Replicas, u: Uuid): Entry
    requires u in Index(CollectEntries(r.va.root))
  {
    Index(CollectEntries(r.va.root))[u].entry
  }

  function EntryB(r: Replicas, u: Uuid): Entry
    requires u in Index(CollectEntries(r.vb.root))
  {
    Index(CollectEntries(r.vb.root))[u].entry
  }

  /** What the two sides decide about a conflict over `u`. */
  ghost function Decisions(r: Replicas, u: Uuid): (Decision, Decision)
    requires u in Index(CollectEntries(r.va.root)) && u in Index(CollectEntries(r.vb.root))
  {
    BothDecide(Lookup(ResolutionTimes(r.va.resolutions), u), Lookup(ResolutionTimes(r.vb.resolutions), u),
               EntryA(r, u).live.modified, EntryB(r, u).live.modified)
  }

  /** Both sides in sync: one version, each side keeping its stamp. The stamps are the
      same to the second exactly if the projected ones are: the same edit made on both
      sides in different seconds leaves different stamps. */
  lemma InSyncAgrees(r: Replicas, brainA: Brain, brainB: Brain, owners: (string, string), latest: int, u: Uuid)
    requires Shared(r, brainA, brainB, u) && brainA.classify(EntryA(r, u), EntryB(r, u)).InSync?
    ensures u in After(r, brainA, owners.0, latest).entries && u in After(Swap(r), brainB, owners.1, latest).entries
    ensures var a, b := After(r, brainA, owners.0, latest).entries[u].entry.live, After(Swap(r), brainB, owners.1, latest).entries[u].entry.live;
            && SameVersion(a, b) && a == r.ta.entries[u].entry.live && b == r.tb.entries[u].entry.live
            && (FloorOption(a.modified) == FloorOption(b.modified) <==> EntryA(r, u).live.modified == EntryB(r, u).live.modified)
  {
    RowsShow(r, u);
    SharedAfter(r, brainA, owners.0, latest, u);
    SharedAfter(Swap(r), brainB, owners.1, latest, u);
    var passA, passB := PassOf(r, brainA, owners.0, latest), PassOf(Swap(r), brainB, owners.1, latest);
    InSyncLive(passA.rules, AfterPeerGroups(r.ta.groups, r.vb.root), r.ta.entries[u], passA.local[u].entry, passA.peer[u]);
    InSyncLive(passB.rules, AfterPeerGroups(r.tb.groups, r.va.root), r.tb.entries[u], passB.local[u].entry, passB.peer[u]);
  }

  /** Both sides merge: one version; and one stamp, for dated entries and a clock
      that is not exhausted, exactly in the cases of `MergeTimesAgreeWhen`. */
  lemma MergesAgree(r: Replicas, brainA: Brain, brainB: Brain, owners: (string, string), latest: int, u: Uuid)
    requires Shared(r, brainA, brainB, u) && brainA.classify(EntryA(r, u), EntryB(r, u)).AutoMerged?
    ensures u in After(r, brainA, owners.0, latest).entries && u in After(Swap(r), brainB, owners.1, latest).entries
    ensures var a, b := After(r, brainA, owners.0, latest).entries[u].entry.live, After(Swap(r), brainB, owners.1, latest).entries[u].entry.live;
            var la, lb := EntryA(r, u).live, EntryB(r, u).live;
            var va, vb := brainA.classify(EntryA(r, u), EntryB(r, u)), brainB.classify(EntryB(r, u), EntryA(r, u));
            && SameVersion(a, b) && SameVersion(a, va.merged.live)
            && (la.modified.Some? && lb.modified.Some?
                && la.modified.value + MERGED_VERSION_STEP_MS <= latest && lb.modified.value + MERGED_VERSION_STEP_MS <= latest ==>
                  (a.modified == b.modified <==>
                     if SameVersion(va.merged.live, la) && SameVersion(va.merged.live, lb) then Takes(va) != Takes(vb) || la.modified == lb.modified
                     else if SameVersion(va.merged.live, la) then !Takes(va)
                     else if SameVersion(va.merged.live, lb) then !Takes(vb)
                     else true))
  {
    SharedAfter(r, brainA, owners.0, latest, u);
    SharedAfter(Swap(r), brainB, owners.1, latest, u);
    var passA, passB := PassOf(r, brainA, owners.0, latest), PassOf(Swap(r), brainB, owners.1, latest);
    MergedLive(passA.rules, AfterPeerGroups(r.ta.groups, r.vb.root), r.ta.entries[u], passA.local[u].entry, passA.peer[u]);
    MergedLive(passB.rules, AfterPeerGroups(r.tb.groups, r.va.root), r.tb.entries[u], passB.local[u].entry, passB.peer[u]);
    StampsAgree(EntryA(r, u).live, EntryB(r, u).live, brainA.classify(EntryA(r, u), EntryB(r, u)), brainB.classify(EntryB(r, u), EntryA(r, u)), latest);
  }

  lemma StampsAgree(la: Version, lb: Version, va: Verdict, vb: Verdict, latest: int)
    requires va.AutoMerged? && vb.AutoMerged? && SameVersion(va.merged.live, vb.merged.live)
    requires va.merged.live.modified == la.modified && vb.merged.live.modified == lb.modified
    ensures la.modified.Some? && lb.modified.Some?
            && la.modified.value + MERGED_VERSION_STEP_MS <= latest && lb.modified.value + MERGED_VERSION_STEP_MS <= latest ==>
              (MergedTime(va.merged.live, MovesLocal(la, va.merged.live, Takes(va)), la, lb, latest) ==
               MergedTime(vb.merged.live, MovesLocal(lb, vb.merged.live, Takes(vb)), lb, la, latest) <==>
                 if SameVersion(va.merged.live, la) && SameVersion(va.merged.live, lb) then Takes(va) != Takes(vb) || la.modified == lb.modified
                 else if SameVersion(va.merged.live, la) then !Takes(va)
                 else if SameVersion(va.merged.live, lb) then !Takes(vb)
                 else true)
  {
    if la.modified.Some? && lb.modified.Some?
       && la.modified.value + MERGED_VERSION_STEP_MS <= latest && lb.modified.value + MERGED_VERSION_STEP_MS <= latest {
      MergeTimesAgreeWhen(la, lb, va.merged.live, vb.merged.live, Takes(va), Takes(vb), latest);
    }
  }

  /** What one side makes of a conflict, by its decision. */
  lemma ConflictOnOneSide(r: Replicas, brain: Brain, owner: string, latest: int, u: Uuid)
    requires Ready(r) && u in r.ta.entries && u in r.tb.entries
    requires u in Index(CollectEntries(r.va.root)) && u in Index(CollectEntries(r.vb.root))
    requires brain.classify(EntryA(r, u), EntryB(r, u)).Conflict?
    ensures u in After(r, brain, owner, latest).entries
    ensures var after := After(r, brain, owner, latest);
            && after.entries[u].entry.live == (if Decisions(r, u).0 == AdoptPeer then EntryB(r, u).live else r.ta.entries[u].entry.live)
            && (Decisions(r, u).0 == HoldOpen ==> Owned(owner, u) in after.conflicts)
  {
    var pass := PassOf(r, brain, owner, latest);
    SharedAfter(r, brain, owner, latest, u);
    ConflictRowsExact(r, brain, owner, latest, Owned(owner, u));
    ConflictLive(pass.rules, AfterPeerGroups(r.ta.groups, r.vb.root), r.ta.entries[u], pass.local[u].entry, pass.peer[u]);
  }

  /** What a vault shows agrees with the row. */
  lemma ShownAgrees(r: Replicas, u: Uuid)
    requires Ready(r) && u in r.ta.entries && u in r.tb.entries
    requires u in Index(CollectEntries(r.va.root)) && u in Index(CollectEntries(r.vb.root))
    ensures Agreed(EntryB(r, u).live, r.tb.entries[u].entry.live) && Agreed(r.ta.entries[u].entry.live, EntryA(r, u).live)
  {
    RowsShow(r, u);
  }

  /** And the other side. */
  lemma ConflictOnOtherSide(r: Replicas, brain: Brain, owner: string, latest: int, u: Uuid)
    requires Ready(r) && u in r.ta.entries && u in r.tb.entries
    requires u in Index(CollectEntries(r.va.root)) && u in Index(CollectEntries(r.vb.root))
    requires brain.classify(EntryB(r, u), EntryA(r, u)).Conflict?
    ensures u in After(Swap(r), brain, owner, latest).entries
    ensures var after := After(Swap(r), brain, owner, latest);
            && after.entries[u].entry.live == (if Decisions(r, u).1 == AdoptPeer then EntryA(r, u).live else r.tb.entries[u].entry.live)
            && (Decisions(r, u).1 == HoldOpen ==> Owned(owner, u) in after.conflicts)
  {
    ConflictOnOneSide(Swap(r), brain, owner, latest, u);
  }

  /** What the sides hold of an entry, given what they decide. */
  ghost predicate EndsAs(d: (Decision, Decision), a: Version, b: Version, ownA: Version, ownB: Version, openA: bool, openB: bool) {
    match d
    case (HoldOpen, HoldOpen) => openA && openB
    case (LocalHolds, LocalHolds) => a == ownA && b == ownB
    case (AdoptPeer, LocalHolds) => Agreed(a, b)
    case (LocalHolds, AdoptPeer) => Agreed(a, b)
    case _ => false
  }

  lemma OnEachSide(d: (Decision, Decision), a: Version, b: Version, ownA: Version, ownB: Version, shownA: Version, shownB: Version, openA: bool, openB: bool)
    requires d == (HoldOpen, HoldOpen) || d == (LocalHolds, LocalHolds) || d == (AdoptPeer, LocalHolds) || d == (LocalHolds, AdoptPeer)
    requires a == (if d.0 == AdoptPeer then shownB else ownA) && b == (if d.1 == AdoptPeer then shownA else ownB)
    requires (d.0 == HoldOpen ==> openA) && (d.1 == HoldOpen ==> openB)
    requires Agreed(shownB, ownB) && Agreed(ownA, shownA)
    ensures EndsAs(d, a, b, ownA, ownB, openA, openB)
  {
  }

  /** A conflict: either it is open on both sides, or both hold one version stamped
      in one second, or, exactly if both resolved it and neither edited after the
      other's resolution, each side keeps its own. */
  lemma ConflictsAgree(r: Replicas, brainA: Brain, brainB: Brain, owners: (string, string), latest: int, u: Uuid)
    requires Shared(r, brainA, brainB, u) && brainA.classify(EntryA(r, u), EntryB(r, u)).Conflict?
    ensures u in After(r, brainA, owners.0, latest).entries && u in After(Swap(r), brainB, owners.1, latest).entries
    ensures var a, b := After(r, brainA, owners.0, latest), After(Swap(r), brainB, owners.1, latest);
            EndsAs(Decisions(r, u), a.entries[u].entry.live, b.entries[u].entry.live, r.ta.entries[u].entry.live, r.tb.entries[u].entry.live,
                   Owned(owners.0, u) in a.conflicts, Owned(owners.1, u) in b.conflicts)
    ensures Decisions(r, u) == (LocalHolds, LocalHolds) <==>
              var ra, rb := Lookup(ResolutionTimes(r.va.resolutions), u), Lookup(ResolutionTimes(r.vb.resolutions), u);
              ra.Some? && rb.Some? && !EditedAfter(EntryB(r, u).live.modified, ra) && !EditedAfter(EntryA(r, u).live.modified, rb)
  {
    assert brainB.classify(EntryB(r, u), EntryA(r, u)).Conflict?;
    BothConflict(r, brainA, brainB, owners, latest, u);
    DecisionsFit(r, u);
  }

  lemma BothConflict(r: Replicas, brainA: Brain, brainB: Brain, owners: (string, string), latest: int, u: Uuid)
    requires Ready(r) && u in r.ta.entries && u in r.tb.entries
    requires u in Index(CollectEntries(r.va.root)) && u in Index(CollectEntries(r.vb.root))
    requires brainA.classify(EntryA(r, u), EntryB(r, u)).Conflict? && brainB.classify(EntryB(r, u), EntryA(r, u)).Conflict?
    ensures u in After(r, brainA, owners.0, latest).entries && u in After(Swap(r), brainB, owners.1, latest).entries
    ensures var a, b := After(r, brainA, owners.0, latest), After(Swap(r), brainB, owners.1, latest);
            EndsAs(Decisions(r, u), a.entries[u].entry.live, b.entries[u].entry.live, r.ta.entries[u].entry.live, r.tb.entries[u].entry.live,
                   Owned(owners.0, u) in a.conflicts, Owned(owners.1, u) in b.conflicts)
  {
    ConflictOnOneSide(r, brainA, owners.0, latest, u);
    ConflictOnOtherSide(r, brainB, owners.1, latest, u);
    DecisionsFit(r, u);
    ShownAgrees(r, u);
    var a, b := After(r, brainA, owners.0, latest), After(Swap(r), brainB, owners.1, latest);
    OnEachSide(Decisions(r, u), a.entries[u].entry.live, b.entries[u].entry.live, r.ta.entries[u].entry.live, r.tb.entries[u].entry.live,
               EntryA(r, u).live, EntryB(r, u).live, Owned(owners.0, u) in a.conflicts, Owned(owners.1, u) in b.conflicts);
  }

  /** How the two sides' decisions go together. */
  lemma DecisionsFit(r: Replicas, u: Uuid)
    requires u in Index(CollectEntries(r.va.root)) && u in Index(CollectEntries(r.vb.root))
    ensures match Decisions(r, u)
            case (HoldOpen, HoldOpen) => true
            case (LocalHolds, LocalHolds) => true
            case (AdoptPeer, LocalHolds) => true
            case (LocalHolds, AdoptPeer) => true
            case _ => false
    ensures Decisions(r, u) == (LocalHolds, LocalHolds) <==>
              var ra, rb := Lookup(ResolutionTimes(r.va.resolutions), u), Lookup(ResolutionTimes(r.vb.resolutions), u);
              ra.Some? && rb.Some? && !EditedAfter(EntryB(r, u).live.modified, ra) && !EditedAfter(EntryA(r, u).live.modified, rb)
  {
  }
}
