/** What the entry half of a peer pass does to one shared entry, said outright. */
module EntryLaws {
  import opened Order
  import opened Store
  import opened EntryRules
  import opened BinWalk
  import opened EntrySync

  // ----- attachments

  /** The attachments of one name, in order. */
  ghost function Named(attachments: seq<Attachment>, name: string): seq<Attachment> {
    if attachments == [] then []
    else (if attachments[0].name == name then [attachments[0]] else []) + Named(attachments[1..], name)
  }

  /** Change `i` is the last one of that name. */
  ghost predicate LastChange(changes: seq<AttachmentChange>, name: string, i: int) {
    0 <= i < |changes| && changes[i].name == name && forall k :: i < k < |changes| ==> changes[k].name != name
  }

  lemma {:induction false} NamedJoins(a: seq<Attachment>, b: seq<Attachment>, name: string)
    ensures Named(a + b, name) == Named(a, name) + Named(b, name)
    decreases a
  {
    if a == [] {
      assert a + b == b;
    } else {
      var both := a + b;
      assert both[0] == a[0] && both[1..] == a[1..] + b;
      NamedJoins(a[1..], b, name);
      assert Named(both, name) == (if a[0].name == name then [a[0]] else []) + Named(a[1..] + b, name);
    }
  }

  lemma {:induction false} NamedWithout(a: seq<Attachment>, gone: string, name: string)
    ensures Named(WithoutAttachment(a, gone), name) == if name == gone then [] else Named(a, name)
  {
    if a != [] {
      NamedWithout(a[1..], gone, name);
      NamedJoins(if a[0].name == gone then [] else [a[0]], WithoutAttachment(a[1..], gone), name);
    }
  }

  /** Name by name the last change decides: taken, it is the one attachment of that
      name, with those bytes; dropped, there is none; a name nobody changed keeps what
      it had. */
  lemma {:induction false} ChangesDecide(attachments: seq<Attachment>, changes: seq<AttachmentChange>, name: string)
    ensures (forall i :: 0 <= i < |changes| ==> changes[i].name != name) ==>
              Named(ApplyChanges(attachments, changes), name) == Named(attachments, name)
    ensures forall i :: LastChange(changes, name, i) ==>
              Named(ApplyChanges(attachments, changes), name) ==
                if changes[i].Take? then [Attachment(name, Some(changes[i].bytes), false)] else []
    decreases changes
  {
    if changes != [] {
      var c, more := changes[0], changes[1..];
      var rest := WithoutAttachment(attachments, c.name);
      var next := if c.Take? then rest + [Attachment(c.name, Some(c.bytes), false)] else rest;
      NamedWithout(attachments, c.name, name);
      NamedJoins(rest, [Attachment(c.name, if c.Take? then Some(c.bytes) else None, false)], name);
      ChangesDecide(next, more, name);
      assert forall k :: 0 <= k < |more| ==> more[k] == changes[k + 1];
      forall i | LastChange(changes, name, i) && i > 0 ensures LastChange(more, name, i - 1) {
      }
    }
  }

  // ----- the history of a merge

  /** Every text of the two is the same, and their fields and tags are, in any order. */
  ghost predicate SameTexts(a: Version, b: Version) {
    && a.title == b.title && a.username == b.username && a.password == b.password && a.url == b.url && a.notes == b.notes
    && multiset(a.customFields) == multiset(b.customFields) && multiset(a.tags) == multiset(b.tags)
  }

  /** And so are their attachments, of which none lacks its bytes. */
  ghost predicate SameRecord(a: Version, b: Version) {
    && SameTexts(a, b) && multiset(a.attachments) == multiset(b.attachments)
    && forall x :: x in a.attachments || x in b.attachments ==> x.bytes.Some?
  }

  ghost predicate SameSecond(a: Option<int>, b: Option<int>) {
    a.Some? == b.Some? && (a.Some? ==> a.value / 1000 == b.value / 1000)
  }

  /** The histories are as long, and each record of either is on the other, in the same
      second. */
  ghost predicate Counterparts(a: seq<Version>, b: seq<Version>) {
    |a| == |b| && CounterpartsIn(a, b) && CounterpartsIn(b, a)
  }

  ghost predicate CounterpartsIn(a: seq<Version>, b: seq<Version>) {
    forall v :: v in a ==> Counterpart(v, b)
  }

  ghost predicate Counterpart(v: Version, side: seq<Version>) {
    exists w :: w in side && SameRecord(v, w) && SameSecond(v.modified, w.modified)
  }

  lemma SameRecordMeans(a: Version, b: Version)
    ensures SameVersion(a, b) <==> SameTexts(a, b)
    ensures SameContent(a, b) <==> SameRecord(a, b)
  {
    if SameVersion(a, b) && !Dangles(a) && !Dangles(b) {
      forall x | x in a.attachments || x in b.attachments ensures x.bytes.Some? {
      }
    }
    if SameRecord(a, b) {
      assert forall i :: 0 <= i < |a.attachments| ==> a.attachments[i] in a.attachments;
      assert forall i :: 0 <= i < |b.attachments| ==> b.attachments[i] in b.attachments;
    }
  }

  lemma TwinMeans(v: Version, side: seq<Version>)
    ensures HasTwin(v, side) <==> Counterpart(v, side)
  {
    forall w ensures SameContent(v, w) <==> SameRecord(v, w) {
      SameRecordMeans(v, w);
    }
    forall w: Version ensures FloorOption(v.modified) == FloorOption(w.modified) <==> SameSecond(v.modified, w.modified) {
      SecondMeans(v.modified, w.modified);
    }
  }

  lemma SecondMeans(a: Option<int>, b: Option<int>)
    ensures FloorOption(a) == FloorOption(b) <==> SameSecond(a, b)
  {
    if a.Some? {
      FloorMeans(a.value);
    }
    if b.Some? {
      FloorMeans(b.value);
    }
  }

  lemma IdenticalMeans(a: seq<Version>, b: seq<Version>)
    ensures HistoriesIdentical(a, b) <==> Counterparts(a, b)
  {
    TwinsMean(a, b);
    TwinsMean(b, a);
  }

  lemma TwinsMean(a: seq<Version>, b: seq<Version>)
    ensures (forall i :: 0 <= i < |a| ==> HasTwin(a[i], b)) <==> CounterpartsIn(a, b)
  {
    forall v ensures HasTwin(v, b) <==> Counterpart(v, b) {
      TwinMeans(v, b);
    }
    assert forall i :: 0 <= i < |a| ==> a[i] in a;
  }

  /** Some record of either side has the version. */
  ghost predicate OnRecord(v: Version, local: Entry, peer: Entry) {
    exists h :: (h in local.history || h in peer.history) && SameRecord(h, v)
  }

  /** The merge makes local a new version: a field or tag differs, or an attachment
      change is taken over. */
  ghost predicate Replaces(local: Version, merged: Version, changes: seq<AttachmentChange>) {
    changes != [] || !SameTexts(local, merged)
  }

  /** The history the merge leaves before it is folded: with the version it replaces
      last, unless that is on record. */
  ghost function MergeHistory(local: Entry, peer: Entry, merged: Entry, changes: seq<AttachmentChange>): seq<Version> {
    merged.history + if Replaces(local.live, merged.live, changes) && !OnRecord(local.live, local, peer) then [local.live] else []
  }

  /** The row has the history of `base`, with that of `other` folded in unless nothing
      came of it. */
  ghost predicate FoldsTo(brain: Brain, base: Entry, other: Entry, row: Entry) {
    var steady := base.historyTombstones.None? && other.historyTombstones.None?
                  && Counterparts(base.history, other.history) && brain.dropCount(base.history) == 0;
    if steady || !brain.fold(base, other).changed
    then row.history == base.history && row.historyTombstones == base.historyTombstones
    else row.history == brain.fold(base, other).history && row.historyTombstones == brain.fold(base, other).tombstones
  }

  /** `v` is the merged version with a new stamp and the attachment changes. */
  ghost predicate IsMerge(v: Version, merged: Version, changes: seq<AttachmentChange>) {
    v == merged.(modified := v.modified, attachments := v.attachments) && v.attachments == ApplyChanges(merged.attachments, changes)
  }

  /** What writing the folded history comes to. */
  lemma FoldingMeans(brain: Brain, base: Entry, other: Entry, local: Entry, peer: Entry, row: EntryRow)
    requires row.entry.history == base.history && row.entry.historyTombstones == base.historyTombstones
    ensures FoldsTo(brain, base, other, WithHistory(row, FoldedHistory(brain, FoldFrom(base, other), local, peer)).entry)
  {
    IdenticalMeans(base.history, other.history);
  }

  lemma RecordedMeans(local: Entry, peer: Entry)
    ensures Records(local.history, local.live) || Records(peer.history, local.live) <==> OnRecord(local.live, local, peer)
  {
    RecordsMeans(local.history, local.live);
    RecordsMeans(peer.history, local.live);
  }

  lemma RecordsMeans(history: seq<Version>, v: Version)
    ensures Records(history, v) <==> exists h :: h in history && SameRecord(h, v)
  {
    forall h ensures SameContent(h, v) <==> SameRecord(h, v) {
      SameRecordMeans(h, v);
    }
    if h :| h in history && SameRecord(h, v) {
      var i :| 0 <= i < |history| && history[i] == h;
    }
  }

  /** An auto-merge leaves the merged version, and archives the version it replaces
      exactly if that is on no record of either side; the entry handed to the fold has
      that history. */
  lemma MergeArchives(rules: Rules, groups: map<Uuid, GroupRow>, row: EntryRow, local: Entry, peer: Placed)
    requires rules.brain.classify(local, peer.entry).AutoMerged?
    ensures var verdict, after := rules.brain.classify(local, peer.entry), SharedRow(rules, groups, row, local, peer).entry;
            && IsMerge(after.live, verdict.merged.live, verdict.changes)
            && exists base: Entry ::
                 && base.history == MergeHistory(local, peer.entry, verdict.merged, verdict.changes)
                 && base == verdict.merged.(history := base.history, live := base.live)
                 && base.live == verdict.merged.live.(modified := after.live.modified)
                 && FoldsTo(rules.brain, base, peer.entry, after)
  {
    var base := MergeBase(rules, row, local, peer.entry);
    var outcome := ApplyVerdict(rules, row, local, peer.entry);
    FoldingMeans(rules.brain, base, peer.entry, local, peer.entry, WithLocation(groups, outcome.row, peer));
    assert FoldsTo(rules.brain, base, peer.entry, SharedRow(rules, groups, row, local, peer).entry);
  }

  /** The merged entry before the fold. */
  lemma MergeBase(rules: Rules, row: EntryRow, local: Entry, peer: Entry) returns (base: Entry)
    requires rules.brain.classify(local, peer).AutoMerged?
    ensures var verdict, outcome := rules.brain.classify(local, peer), ApplyVerdict(rules, row, local, peer);
            && base.history == MergeHistory(local, peer, verdict.merged, verdict.changes)
            && base == verdict.merged.(history := base.history, live := verdict.merged.live.(modified := base.live.modified))
            && outcome.base == FoldFrom(base, peer)
            && outcome.row.entry == base.(live := base.live.(attachments := ApplyChanges(verdict.merged.live.attachments, verdict.changes)))
  {
    var verdict := rules.brain.classify(local, peer);
    RecordedMeans(local, peer);
    SameRecordMeans(local.live, verdict.merged.live);
    var moves := MovesLocal(local.live, verdict.merged.live, verdict.changes != []);
    var time := MergedTime(verdict.merged.live, moves, local.live, peer.live, rules.latest);
    assert moves <==> Replaces(local.live, verdict.merged.live, verdict.changes);
    base := verdict.merged.(live := verdict.merged.live.(modified := time), history := MergeHistory(local, peer, verdict.merged, verdict.changes));
  }

  /** Its stamp: the merge's own, that is local's, if local's version stays; the peer's,
      if known, if it is the peer's version; else a second past both, as far as the clock
      goes, if either has one. */
  lemma MergeStamps(rules: Rules, groups: map<Uuid, GroupRow>, row: EntryRow, local: Entry, peer: Placed)
    requires rules.brain.classify(local, peer.entry).AutoMerged?
    ensures var verdict, stamp := rules.brain.classify(local, peer.entry), SharedRow(rules, groups, row, local, peer).entry.live.modified;
            var a, b := local.live.modified, peer.entry.live.modified;
            if !Replaces(local.live, verdict.merged.live, verdict.changes) then stamp == verdict.merged.live.modified
            else if SameTexts(verdict.merged.live, peer.entry.live) then stamp == b || (b.None? && stamp == a)
            else if a.None? && b.None? then stamp.None?
            else
              && stamp.Some?
              && exists last :: (Some(last) == a || Some(last) == b) && (a.Some? ==> last >= a.value) && (b.Some? ==> last >= b.value)
                   && stamp.value == if last + 1000 <= rules.latest then last + 1000 else last
  {
    var verdict := rules.brain.classify(local, peer.entry);
    SameRecordMeans(local.live, verdict.merged.live);
    SameRecordMeans(verdict.merged.live, peer.entry.live);
    var outcome := ApplyVerdict(rules, row, local, peer.entry);
    assert SharedRow(rules, groups, row, local, peer).entry.live == outcome.row.entry.live;
    var last := LaterOption(local.live.modified, peer.entry.live.modified);
    assert last.Some? ==> Advanced(last.value, rules.latest) == if last.value + 1000 <= rules.latest then last.value + 1000 else last.value;
  }

  /** An adoption leaves the peer's version over the peer's history, local's folded in. */
  lemma AdoptionArchives(rules: Rules, groups: map<Uuid, GroupRow>, row: EntryRow, local: Entry, peer: Placed)
    requires rules.brain.classify(local, peer.entry).Conflict? && DecideFor(rules, local, peer.entry) == AdoptPeer
    ensures var after := SharedRow(rules, groups, row, local, peer).entry;
            && after.live == peer.entry.live && after.id == peer.entry.id
            && FoldsTo(rules.brain, peer.entry, local, after)
  {
    FoldingMeans(rules.brain, peer.entry, local, local, peer.entry, WithLocation(groups, row.(entry := peer.entry), peer));
  }

  /** In sync, the version stays, and the history of a row that is what was projected is
      local's with the peer's folded in. */
  lemma InSyncFolds(rules: Rules, groups: map<Uuid, GroupRow>, row: EntryRow, local: Entry, peer: Placed)
    requires rules.brain.classify(local, peer.entry).InSync?
    ensures var after := SharedRow(rules, groups, row, local, peer).entry;
            && after.live == row.entry.live
            && (row.entry.history == local.history && row.entry.historyTombstones == local.historyTombstones ==>
                  FoldsTo(rules.brain, local, peer.entry, after))
  {
    if row.entry.history == local.history && row.entry.historyTombstones == local.historyTombstones {
      FoldingMeans(rules.brain, local, peer.entry, local, peer.entry, WithLocation(groups, row, peer));
    }
  }

  /** A conflict that is not adopted changes neither version nor history, but for the
      records that either side has scrubbed. */
  lemma HeldOnlyScrubs(rules: Rules, groups: map<Uuid, GroupRow>, row: EntryRow, local: Entry, peer: Placed)
    requires rules.brain.classify(local, peer.entry).Conflict? && DecideFor(rules, local, peer.entry) != AdoptPeer
    ensures var after, scrub := SharedRow(rules, groups, row, local, peer).entry, rules.brain.scrub(local, peer.entry);
            && after.live == row.entry.live
            && if (local.historyTombstones.None? && peer.entry.historyTombstones.None?) || !scrub.changed
               then after.history == row.entry.history && after.historyTombstones == row.entry.historyTombstones
               else after.history == scrub.history && after.historyTombstones == scrub.tombstones
  {
  }

  // ----- what replaced versions come to

  /** An auto-merge carries local's history. */
  ghost predicate CarriesHistory(brain: Brain) {
    forall l, p {:trigger brain.classify(l, p)} :: brain.classify(l, p).AutoMerged? ==> brain.classify(l, p).merged.history == l.history
  }

  ghost predicate Has(history: seq<Version>, v: Version) {
    exists w :: w in history && (w == v || SameRecord(w, v))
  }

  /** The fold is lossless: whatever either history has is in the result, unless it is
      forgotten, scrubbed or trimmed, that is. */
  ghost predicate FoldUnites(brain: Brain, forgets: (Entry, Entry, Version) -> bool) {
    forall b, o {:trigger brain.fold(b, o)} ::
      var h := if brain.fold(b, o).changed then brain.fold(b, o).history else b.history;
      forall v :: (v in b.history || v in o.history) && !forgets(b, o, v) ==> Has(h, v)
  }

  lemma HasThrough(history: seq<Version>, v: Version, w: Version)
    requires Has(history, v) && SameRecord(v, w)
    ensures Has(history, w)
  {
    var x :| x in history && (x == v || SameRecord(x, v));
    assert SameRecord(x, w);
  }

  /** What `base` or `other` has, the folded history has. */
  lemma FoldKeeps(brain: Brain, forgets: (Entry, Entry, Version) -> bool, base: Entry, other: Entry, row: Entry, v: Version)
    requires FoldUnites(brain, forgets) && FoldsTo(brain, base, other, row)
    requires (v in base.history || v in other.history) && !forgets(base, other, v)
    ensures Has(row.history, v)
  {
    var h := if brain.fold(base, other).changed then brain.fold(base, other).history else base.history;
    assert Has(h, v);
    if row.history != h {
      assert Counterparts(base.history, other.history) && row.history == base.history;
      TwinHas(base.history, other.history, v);
    }
  }

  lemma TwinHas(a: seq<Version>, b: seq<Version>, v: Version)
    requires Counterparts(a, b) && (v in a || v in b)
    ensures Has(a, v)
  {
    if v in b {
      assert CounterpartsIn(b, a);
      var w :| w in a && SameRecord(v, w);
      SameEitherWay(v, w);
    }
  }

  lemma SameEitherWay(v: Version, w: Version)
    requires SameRecord(v, w)
    ensures SameRecord(w, v)
  {
  }

  /** Nothing a merge replaces is lost: whatever local had as its version is, after the
      whole pass, in the history of the row, unless a record with that content is
      scrubbed or trimmed. */
  lemma ReplacedVersionStays(rules: Rules, groups: map<Uuid, GroupRow>, row: EntryRow, local: Entry, peer: Placed,
                             forgets: (Entry, Entry, Version) -> bool)
    requires FoldUnites(rules.brain, forgets) && CarriesHistory(rules.brain)
    requires forall b, o, v :: v == local.live || SameRecord(v, local.live) ==> !forgets(b, o, v)
    requires rules.brain.classify(local, peer.entry).AutoMerged?
    requires var verdict := rules.brain.classify(local, peer.entry); Replaces(local.live, verdict.merged.live, verdict.changes)
    ensures Has(SharedRow(rules, groups, row, local, peer).entry.history, local.live)
  {
    var verdict, after := rules.brain.classify(local, peer.entry), SharedRow(rules, groups, row, local, peer).entry;
    MergeArchives(rules, groups, row, local, peer);
    var base: Entry :| base.history == MergeHistory(local, peer.entry, verdict.merged, verdict.changes) && FoldsTo(rules.brain, base, peer.entry, after);
    if h :| (h in local.history || h in peer.entry.history) && SameRecord(h, local.live) {
      FoldKeeps(rules.brain, forgets, base, peer.entry, after, h);
      HasThrough(after.history, h, local.live);
    } else {
      assert base.history[|verdict.merged.history|] == local.live;
      FoldKeeps(rules.brain, forgets, base, peer.entry, after, local.live);
    }
  }

  /** The same after a whole pass that commits. */
  lemma PassArchives(pass: Pass, groups: map<Uuid, GroupRow>, entries: map<Uuid, EntryRow>, u: Uuid, forgets: (Entry, Entry, Version) -> bool)
    requires u in entries && u in pass.local && u in pass.peer
    requires FoldUnites(pass.rules.brain, forgets) && CarriesHistory(pass.rules.brain)
    requires forall b, o, v :: v == pass.local[u].entry.live || SameRecord(v, pass.local[u].entry.live) ==> !forgets(b, o, v)
    requires pass.rules.brain.classify(pass.local[u].entry, pass.peer[u].entry).AutoMerged?
    ensures u in EntriesAfter(pass, groups, entries)
    ensures var local, after := pass.local[u].entry.live, EntriesAfter(pass, groups, entries)[u].entry;
            var verdict := pass.rules.brain.classify(pass.local[u].entry, pass.peer[u].entry);
            && IsMerge(after.live, verdict.merged.live, verdict.changes)
            && (Replaces(local, verdict.merged.live, verdict.changes) ==> Has(after.history, local))
  {
    EntriesAfterAt(pass, groups, entries, u);
    MergeArchives(pass.rules, groups, entries[u], pass.local[u].entry, pass.peer[u]);
    var verdict := pass.rules.brain.classify(pass.local[u].entry, pass.peer[u].entry);
    if Replaces(pass.local[u].entry.live, verdict.merged.live, verdict.changes) {
      ReplacedVersionStays(pass.rules, groups, entries[u], pass.local[u].entry, pass.peer[u], forgets);
    }
  }

  // ----- places and deletions

  /** A shared entry whose version is not the peer's to take is, after the pass, where the
      peer has it exactly if the peer put it there later and the group is there; else
      where it was. */
  lemma PlaceDecided(rules: Rules, groups: map<Uuid, GroupRow>, row: EntryRow, local: Entry, peer: Placed)
    requires KeepsPlacement(rules.brain)
    requires row.entry.locationChanged == local.locationChanged && row.entry.previousParent == local.previousParent
    requires rules.brain.classify(local, peer.entry).Conflict? ==> DecideFor(rules, local, peer.entry) != AdoptPeer
    ensures var after := SharedRow(rules, groups, row, local, peer);
            if peer.group in groups && PlacedLater(peer.entry, peer.group, row)
            then after.group == peer.group && after.isRecycled == InBin(groups, peer.group)
                 && after.entry.locationChanged == FloorOption(peer.entry.locationChanged) && after.entry.previousParent == peer.entry.previousParent
            else after.group == row.group && after.isRecycled == row.isRecycled
                 && after.entry.locationChanged == row.entry.locationChanged && after.entry.previousParent == row.entry.previousParent
  {
    LaterPlaced(peer.entry, peer.group, row);
    var outcome := ApplyVerdict(rules, row, local, peer.entry);
    assert outcome.row.group == row.group && outcome.row.isRecycled == row.isRecycled && RowLocation(outcome.row) == RowLocation(row);
  }

  /** An entry that the peer no longer has goes exactly if its deletion is dated and no
      edit of ours is known to be later. */
  lemma DeletionDecides(pass: Pass, groups: map<Uuid, GroupRow>, entries: map<Uuid, EntryRow>, u: Uuid)
    requires u in entries && u in pass.local && u !in pass.peer
    ensures var edit := pass.local[u].entry.live.modified;
            u !in EntriesAfter(pass, groups, entries) <==>
              u in pass.peerTomb && pass.peerTomb[u].Some? && (edit.None? || edit.value <= pass.peerTomb[u].value)
  {
    EntriesAfterAt(pass, groups, entries, u);
  }

  /** An entry that only the peer has stays away exactly if our deletion of it is dated
      and no edit of the peer's is known to be later. */
  lemma ArrivalDecides(pass: Pass, groups: map<Uuid, GroupRow>, entries: map<Uuid, EntryRow>, u: Uuid)
    requires u !in entries && u !in pass.local && u in pass.peer
    ensures var edit := pass.peer[u].entry.live.modified;
            u !in EntriesAfter(pass, groups, entries) <==>
              u in pass.localTomb && pass.localTomb[u].Some? && (edit.None? || edit.value <= pass.localTomb[u].value)
  {
    EntriesAfterAt(pass, groups, entries, u);
  }
}
