/** The rules that decide, for one entry, which replica's edit, deletion,
    resolution, location or modification time stands. */
module EntryRules {
  import opened Order
  import opened Store

  // ----- edit versus delete

  /** An edit beats a deletion only if known to be strictly later; an undated
      deletion never beats live data. */
  predicate LiveEditWins(edit: Option<int>, delete: Option<int>) {
    match (edit, delete)
    case (Some(e), Some(d)) => e > d
    case (_, None) => true
    case (None, Some(_)) => false
  }

  /** The earlier of two deletion times, a known one before an unknown one. */
  function Earliest(a: Option<int>, b: Option<int>): Option<int> {
    match (a, b)
    case (Some(x), Some(y)) => Some(if x <= y then x else y)
    case (Some(x), None) => Some(x)
    case (None, _) => b
  }

  lemma EarliestIsJoin(a: Option<int>, b: Option<int>, c: Option<int>)
    ensures Earliest(a, b) == Earliest(b, a)
    ensures Earliest(a, Earliest(b, c)) == Earliest(Earliest(a, b), c)
    ensures Earliest(a, a) == a
  {
  }

  /** One deletion time per id, the earliest recorded. */
  function TombstoneMap(deleted: seq<DeletedObject>): map<Uuid, Option<int>> {
    if deleted == [] then map[]
    else
      var rest := TombstoneMap(deleted[..|deleted| - 1]);
      var t := deleted[|deleted| - 1];
      rest[t.id := if t.id in rest then Earliest(rest[t.id], t.deletedAt) else t.deletedAt]
  }

  /** Whatever order the records come in, each id ends with the earliest of its
      recorded times. */
  lemma {:induction false} TombstoneMapMeans(deleted: seq<DeletedObject>, u: Uuid)
    ensures u in TombstoneMap(deleted) <==> exists i :: 0 <= i < |deleted| && deleted[i].id == u
    ensures u in TombstoneMap(deleted) ==>
              && (exists i :: 0 <= i < |deleted| && deleted[i] == DeletedObject(u, TombstoneMap(deleted)[u]))
              && (forall i :: 0 <= i < |deleted| && deleted[i].id == u ==>
                    Earliest(TombstoneMap(deleted)[u], deleted[i].deletedAt) == TombstoneMap(deleted)[u])
  {
    if deleted != [] {
      var rest := deleted[..|deleted| - 1];
      TombstoneMapMeans(rest, u);
      forall i | 0 <= i < |rest| ensures deleted[i] == rest[i] {
      }
      if u in TombstoneMap(rest) {
        var i :| 0 <= i < |rest| && rest[i] == DeletedObject(u, TombstoneMap(rest)[u]);
        assert deleted[i] == rest[i];
      }
      assert deleted[|deleted| - 1].id == u ==> u in TombstoneMap(deleted);
    }
  }

  // ----- whole seconds

  predicate Whole(t: Option<int>) {
    FloorOption(t) == t
  }

  predicate AllWhole(times: map<Uuid, Option<int>>) {
    forall u :: u in times ==> Whole(times[u])
  }

  function FloorDeletions(deleted: seq<DeletedObject>): (floored: seq<DeletedObject>)
    ensures |floored| == |deleted|
    ensures forall i :: 0 <= i < |deleted| ==> floored[i] == DeletedObject(deleted[i].id, FloorOption(deleted[i].deletedAt))
  {
    seq(|deleted|, i requires 0 <= i < |deleted| => DeletedObject(deleted[i].id, FloorOption(deleted[i].deletedAt)))
  }

  function FloorSettings(s: Settings): Settings {
    s.(databaseNameChanged := FloorOption(s.databaseNameChanged), settingsChanged := FloorOption(s.settingsChanged),
       recycleBinChanged := FloorOption(s.recycleBinChanged))
  }

  function FloorTimes(times: map<Uuid, Option<int>>): map<Uuid, Option<int>> {
    map u | u in times :: FloorOption(times[u])
  }

  lemma FloorOfEarliest(a: Option<int>, b: Option<int>)
    ensures FloorOption(Earliest(a, b)) == Earliest(FloorOption(a), FloorOption(b))
  {
  }

  /** A file holds the deletion times of its vault to the second. */
  lemma {:induction false} FlooredMap(deleted: seq<DeletedObject>)
    ensures TombstoneMap(FloorDeletions(deleted)) == FloorTimes(TombstoneMap(deleted))
  {
    if deleted != [] {
      var front, last := deleted[..|deleted| - 1], deleted[|deleted| - 1];
      FlooredMap(front);
      assert FloorDeletions(deleted)[..|deleted| - 1] == FloorDeletions(front);
      if last.id in TombstoneMap(front) {
        FloorOfEarliest(TombstoneMap(front)[last.id], last.deletedAt);
      }
    }
  }

  /** An edit that is recorded to the second beats a deletion exactly if it beats
      the deletion to the second. */
  lemma SecondsDecideAlike(edit: Option<int>, delete: Option<int>)
    requires Whole(edit)
    ensures LiveEditWins(edit, delete) <==> LiveEditWins(edit, FloorOption(delete))
  {
  }

  /** Two replicas that each join their own deletion time with the other's to the
      second agree to the second; and exactly, just if both fell in one second or
      the earlier one is a whole second. */
  lemma JoinsMeet(a: Option<int>, b: Option<int>)
    ensures var atA, atB := Earliest(a, FloorOption(b)), Earliest(b, FloorOption(a));
            && FloorOption(atA) == FloorOption(atB)
            && (atA == atB <==> Whole(atA) && Whole(atB))
            && (atA == atB <==> FloorOption(a) == FloorOption(b) || Whole(Earliest(a, b)))
  {
  }

  // ----- adopting a peer's conflict resolution

  predicate EditedAfter(modified: Option<int>, resolvedAt: Option<int>) {
    modified.Some? && resolvedAt.Some? && modified.value > resolvedAt.value
  }

  /** The latest resolution of each entry, to the second. */
  function ResolutionTimes(records: seq<Resolution>): map<Uuid, int> {
    if records == [] then map[]
    else
      var rest := ResolutionTimes(records[..|records| - 1]);
      var r := records[|records| - 1];
      var t := FloorToSecond(r.resolvedAt);
      rest[r.entry := if r.entry in rest && rest[r.entry] >= t then rest[r.entry] else t]
  }

  datatype Decision = LocalHolds | AdoptPeer | HoldOpen

  /** What a replica does about a conflict, given when each side resolved it and
      when each side last edited the entry. */
  function Decide(localResolved: Option<int>, peerResolved: Option<int>,
                  localModified: Option<int>, peerModified: Option<int>): Decision {
    if localResolved.Some? && !EditedAfter(peerModified, localResolved) then LocalHolds
    else if peerResolved.Some? && !EditedAfter(localModified, peerResolved) then AdoptPeer
    else HoldOpen
  }

  /** The decisions two replicas reach about the same conflict in one exchange. */
  function BothDecide(resolvedA: Option<int>, resolvedB: Option<int>,
                      modifiedA: Option<int>, modifiedB: Option<int>): (Decision, Decision) {
    (Decide(resolvedA, resolvedB, modifiedA, modifiedB), Decide(resolvedB, resolvedA, modifiedB, modifiedA))
  }

  /** Values never swap: a side adopts only from one that keeps its own. With one
      record both sides end on the resolver's value or both hold the conflict
      open. */
  lemma AdoptionNeverSwaps(ra: Option<int>, rb: Option<int>, ma: Option<int>, mb: Option<int>)
    ensures var d := BothDecide(ra, rb, ma, mb);
            && (d.0 == AdoptPeer ==> d.1 == LocalHolds) && (d.1 == AdoptPeer ==> d.0 == LocalHolds)
            && (ra.None? && rb.Some? ==> d == (AdoptPeer, LocalHolds) || d == (HoldOpen, HoldOpen))
            && (ra.None? && rb.None? ==> d == (HoldOpen, HoldOpen))
  {
  }

  /** The exchange leaves the sides with different values and no open conflict in
      exactly one case: both resolved it, and neither edited after the other's
      resolution. */
  lemma ResolvedTwiceStaysSplit(ra: Option<int>, rb: Option<int>, ma: Option<int>, mb: Option<int>)
    ensures BothDecide(ra, rb, ma, mb) == (LocalHolds, LocalHolds) <==>
              ra.Some? && rb.Some? && !EditedAfter(mb, ra) && !EditedAfter(ma, rb)
    ensures BothDecide(Some(5000), Some(6000), Some(1000), Some(2000)) == (LocalHolds, LocalHolds)
  {
  }

  // ----- location

  /** Where an entry lives, since which second, and where it came from. */
  datatype Location = Location(stamp: Option<int>, group: Uuid, previous: Option<Uuid>)

  function CompareLocations(a: Location, b: Location): Ordering {
    Then(CompareOptionInts(a.stamp, b.stamp),
      Then(CompareInts(a.group, b.group), CompareOptionInts(a.previous, b.previous)))
  }

  function LocationOf(entry: Entry, group: Uuid): Location {
    Location(FloorOption(entry.locationChanged), group, entry.previousParent)
  }

  function RowLocation(row: EntryRow): Location {
    LocationOf(row.entry, row.group)
  }

  /** The copy is in `group` since a later second than the row is in its own; in one
      second the larger group decides, then the larger previous parent. What has no
      stamp, or no previous parent, comes first. */
  ghost predicate PlacedLater(copy: Entry, group: Uuid, row: EntryRow) {
    var a, b := copy.locationChanged, row.entry.locationChanged;
    || (a.Some? && (b.None? || a.value / 1000 > b.value / 1000))
    || ((if a.Some? then b.Some? && a.value / 1000 == b.value / 1000 else b.None?)
        && (group > row.group
            || (group == row.group && copy.previousParent.Some?
                && (row.entry.previousParent.None? || copy.previousParent.value > row.entry.previousParent.value))))
  }

  lemma LaterPlaced(copy: Entry, group: Uuid, row: EntryRow)
    ensures CompareLocations(LocationOf(copy, group), RowLocation(row)) == Greater <==> PlacedLater(copy, group, row)
  {
    if copy.locationChanged.Some? {
      FloorMeans(copy.locationChanged.value);
    }
    if row.entry.locationChanged.Some? {
      FloorMeans(row.entry.locationChanged.value);
    }
  }

  function Later(a: Location, b: Location): Location {
    if CompareLocations(b, a) == Greater then b else a
  }

  /** `Later` is the join of a total order. */
  lemma LaterIsJoin(a: Location, b: Location, c: Location)
    ensures Later(a, b) == Later(b, a)
    ensures Later(a, Later(b, c)) == Later(Later(a, b), c)
    ensures Later(a, a) == a
    ensures Later(a, b) == a || Later(a, b) == b
  {
  }

  // ----- versions

  /** Equal in everything that identifies a version except its attachments. Both
      sides sort their fields and tags first, so only the contents count. */
  predicate SameVersion(a: Version, b: Version) {
    && a.title == b.title && a.username == b.username && a.password == b.password
    && a.url == b.url && a.notes == b.notes
    && multiset(a.customFields) == multiset(b.customFields)
    && multiset(a.tags) == multiset(b.tags)
  }

  predicate Dangles(v: Version) {
    exists i :: 0 <= i < |v.attachments| && v.attachments[i].bytes.None?
  }

  /** `SameVersion` with the same attachments. A dangling reference equals
      nothing, not even itself. */
  predicate SameContent(a: Version, b: Version) {
    && SameVersion(a, b)
    && !Dangles(a) && !Dangles(b)
    && multiset(a.attachments) == multiset(b.attachments)
  }

  predicate HasTwin(v: Version, side: seq<Version>) {
    exists j :: 0 <= j < |side| && FloorOption(v.modified) == FloorOption(side[j].modified) && SameContent(v, side[j])
  }

  predicate HistoriesIdentical(a: seq<Version>, b: seq<Version>) {
    && |a| == |b|
    && (forall i :: 0 <= i < |a| ==> HasTwin(a[i], b))
    && (forall i :: 0 <= i < |b| ==> HasTwin(b[i], a))
  }

  /** The cheap steady-state test recognises a history as itself exactly when no
      record of it has a dangling attachment. */
  lemma HistoryIsItself(h: seq<Version>)
    ensures HistoriesIdentical(h, h) <==> forall i :: 0 <= i < |h| ==> !Dangles(h[i])
  {
    forall i | 0 <= i < |h|
      ensures HasTwin(h[i], h) <==> !Dangles(h[i])
    {
      if !Dangles(h[i]) {
        assert SameContent(h[i], h[i]);
      }
    }
  }

  /** Two attachments of one name do not keep a version from equalling itself. */
  lemma SameNamesEqualThemselves(v: Version)
    requires !Dangles(v)
    ensures SameContent(v, v)
    ensures var doubled := v.(attachments := v.attachments + [Attachment("a", Some([]), false), Attachment("a", Some([]), false)]);
            SameContent(doubled, doubled)
  {
    var doubled := v.(attachments := v.attachments + [Attachment("a", Some([]), false), Attachment("a", Some([]), false)]);
    assert forall i :: 0 <= i < |v.attachments| ==> doubled.attachments[i] == v.attachments[i];
  }

  // ----- the modification time of a merge

  /** One tick of the whole-second resolution of the vault format. */
  const MERGED_VERSION_STEP_MS := 1000

  /** `latest` is the last instant the clock type can hold. */
  function Advanced(t: int, latest: int): int {
    if t + MERGED_VERSION_STEP_MS <= latest then t + MERGED_VERSION_STEP_MS else t
  }

  function LaterOption(a: Option<int>, b: Option<int>): Option<int> {
    if CompareOptionInts(a, b) == Less then b else a
  }

  /** The time of an auto-merge: local's while only the peer is behind, the
      peer's when the merge is the peer's version, else a step past both. */
  function MergedTime(merged: Version, movesLocal: bool, local: Version, peer: Version, latest: int): Option<int> {
    if !movesLocal then merged.modified
    else if SameVersion(merged, peer) then (if peer.modified.Some? then peer.modified else local.modified)
    else
      match LaterOption(local.modified, peer.modified)
      case None => None
      case Some(t) => Some(Advanced(t, latest))
  }

  function MovesLocal(local: Version, merged: Version, takesAttachments: bool): bool {
    takesAttachments || !SameVersion(local, merged)
  }

  /** One exchange of an entry both sides edited: the versions `a` and `b`, what
      each side's merge came to, and whether it took over attachments. The merge
      inherits local's time. */
  ghost predicate Exchanged(a: Version, b: Version, mergedA: Version, mergedB: Version) {
    && a.modified.Some? && b.modified.Some?
    && mergedA.modified == a.modified && mergedB.modified == b.modified
    && SameVersion(mergedA, mergedB)
  }

  /** Dated entries of different versions that no merge takes attachments for:
      both replicas stamp the merge alike, and a merge that is neither input is
      strictly later than both unless the clock is exhausted. */
  lemma MergeTimesAgree(a: Version, b: Version, mergedA: Version, mergedB: Version, latest: int)
    requires Exchanged(a, b, mergedA, mergedB) && !SameVersion(a, b)
    ensures var timeA := MergedTime(mergedA, MovesLocal(a, mergedA, false), a, b, latest);
            var timeB := MergedTime(mergedB, MovesLocal(b, mergedB, false), b, a, latest);
            && timeA == timeB && timeA.Some?
            && (!SameVersion(mergedA, a) && !SameVersion(mergedA, b) ==>
                  var last := LaterOption(a.modified, b.modified).value;
                  timeA.value > last <==> last + MERGED_VERSION_STEP_MS <= latest)
  {
  }

  /** With attachments in play the two times agree exactly in these cases. In
      particular two attachment-only edits of one version leave the replicas
      with each other's time. */
  lemma MergeTimesAgreeWhen(a: Version, b: Version, mergedA: Version, mergedB: Version,
                            takesA: bool, takesB: bool, latest: int)
    requires Exchanged(a, b, mergedA, mergedB)
    requires a.modified.value + MERGED_VERSION_STEP_MS <= latest && b.modified.value + MERGED_VERSION_STEP_MS <= latest
    ensures MergedTime(mergedA, MovesLocal(a, mergedA, takesA), a, b, latest) ==
            MergedTime(mergedB, MovesLocal(b, mergedB, takesB), b, a, latest) <==>
              if SameVersion(mergedA, a) && SameVersion(mergedA, b) then takesA != takesB || a.modified == b.modified
              else if SameVersion(mergedA, a) then !takesA
              else if SameVersion(mergedA, b) then !takesB
              else true
  {
  }
}
