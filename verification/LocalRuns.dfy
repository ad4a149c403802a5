/** Runs of the local operations on groups and entries' places. */
module LocalRuns {
  import opened Order
  import opened GroupGraph
  import opened Store
  import opened BinWalk
  import opened GroupTombstones
  import opened GroupDelete
  import opened GroupOps
  import opened RecycleBin
  import opened BinBorder

  datatype Op =
    | Create(parent: Uuid, id: Uuid, name: string, notes: string, icon: int, customIcon: Option<Uuid>)
    | Move(group: Uuid, to: Uuid)
    | Reorder(group: Uuid, position: nat)
    | Delete(group: Uuid)
    | EmptyBin
    | RecycleWhole(group: Uuid)
    | Recycle(entry: Uuid, newBin: Uuid)
    | Restore(entry: Uuid)

  datatype Placement = Placement(groups: map<Uuid, GroupRow>, entries: map<Uuid, EntryRow>)

  function PlacementOf(m: Mirror): Placement
    reads m
  {
    Placement(m.groups, m.entries)
  }

  /** One tree under `root`, every entry in a group that exists, at most one bin. */
  ghost predicate Orderly(at: Placement, root: Uuid) {
    GroupTree(at.groups, root) && Resolves(at.groups, at.entries) && AtMostOneBin(at.groups)
  }

  ghost predicate Flagged(at: Placement) {
    FlagsExact(at.groups, at.entries)
  }

  /** Recycling a group takes the bin along. */
  ghost predicate TakesBin(at: Placement, op: Op) {
    op.RecycleWhole? && op.group in at.groups && !IsBin(at.groups, op.group) && HoldsBin(at.groups, op.group)
  }

  /** The operation leaves some entry on the other side of the bin's border than its
      flag says: it moves or recycles a group with entries across, or restores an
      entry where the root itself is the bin. */
  ghost predicate Crosses(at: Placement, op: Op, root: Uuid) {
    match op
    case Move(u, to) =>
      u in at.groups && to in at.groups && !Within(ParentsOf(at.groups), to, u) && CarriesAcross(at.groups, at.entries, u, to)
    case RecycleWhole(u) =>
      u in at.groups && exists b :: IsBin(at.groups, b) && b != u && CarriesAcross(at.groups, at.entries, u, b)
    case Restore(e) => e in at.entries && IsBin(at.groups, root)
    case _ => false
  }

  // ----- sizes and flags

  lemma OneMoreKey(before: map<Uuid, GroupRow>, after: map<Uuid, GroupRow>, id: Uuid)
    requires after.Keys <= before.Keys + {id}
    ensures |after| <= |before| + 1
  {
    Fewer(after.Keys, before.Keys + {id});
    assert |after.Keys| == |after| && |before.Keys + {id}| <= |before.Keys| + 1;
  }

  lemma {:induction false} Fewer(a: set<Uuid>, b: set<Uuid>)
    requires a <= b
    ensures |a| <= |b|
  {
    if u :| u in a {
      Fewer(a - {u}, b - {u});
    }
  }

  /** More groups, or fewer, around entries that stay: their flags stay exact. */
  lemma AroundEntries(before: Placement, after: Placement, root: Uuid)
    requires Orderly(before, root) && Orderly(after, root)
    requires after.groups.Keys <= before.groups.Keys || before.groups.Keys <= after.groups.Keys
    requires forall u :: u in before.groups && u in after.groups ==>
               before.groups[u].parent == after.groups[u].parent && before.groups[u].isRecycleBin == after.groups[u].isRecycleBin
    requires after.entries.Keys <= before.entries.Keys && forall e :: e in after.entries ==> after.entries[e] == before.entries[e]
    ensures Flagged(before) ==> Flagged(after)
  {
    forall e | e in after.entries
      ensures InBin(after.groups, after.entries[e].group) <==> InBin(before.groups, before.entries[e].group)
    {
      if after.groups.Keys <= before.groups.Keys {
        SameInBin(after.groups, before.groups, root, after.entries[e].group);
      } else {
        SameInBin(before.groups, after.groups, root, after.entries[e].group);
      }
    }
  }

  // ----- the steps

  method CreateStep(m: Mirror, op: Op, now: int, ghost root: Uuid)
    requires op.Create? && Orderly(PlacementOf(m), root)
    modifies m`groups, m`mutationSeq
    ensures Orderly(PlacementOf(m), root) && |m.groups| <= |old(m.groups)| + 1
    ensures old(Flagged(PlacementOf(m))) ==> Flagged(PlacementOf(m))
  {
    var _ := CreateGroup(m, op.parent, op.id, op.name, op.notes, op.icon, op.customIcon, now, root);
    FewerFlags(old(m.groups), m.groups);
    OneMoreKey(old(m.groups), m.groups, op.id);
    AroundEntries(old(PlacementOf(m)), PlacementOf(m), root);
  }

  method MoveStep(m: Mirror, u: Uuid, to: Uuid, now: int, ghost root: Uuid)
    requires Orderly(PlacementOf(m), root)
    modifies m`groups, m`mutationSeq
    ensures Orderly(PlacementOf(m), root) && |m.groups| <= |old(m.groups)| + 1
    ensures old(Flagged(PlacementOf(m))) ==> (Flagged(PlacementOf(m)) <==> !Crosses(old(PlacementOf(m)), Move(u, to), root))
  {
    var outcome := MoveGroup(m, u, to, now, root);
    FewerFlags(old(m.groups), m.groups);
    OneMoreKey(old(m.groups), m.groups, u);
    if outcome == Done && old(Flagged(PlacementOf(m))) {
      MoveKeepsFlagsExactly(old(m.groups), m.entries, root, u, m.groups[u], to);
    }
  }

  /** Recycling a group that holds the bin breaks the tree; any other leaves it
      whole. */
  method RecycleWholeStep(m: Mirror, u: Uuid, now: int, ghost root: Uuid)
    requires Orderly(PlacementOf(m), root)
    modifies m`groups, m`mutationSeq
    ensures |m.groups| <= |old(m.groups)| + 1
    ensures GroupTree(m.groups, root) <==> !TakesBin(old(PlacementOf(m)), RecycleWhole(u))
    ensures GroupTree(m.groups, root) ==> Orderly(PlacementOf(m), root)
    ensures GroupTree(m.groups, root) && old(Flagged(PlacementOf(m))) ==>
              (Flagged(PlacementOf(m)) <==> !Crosses(old(PlacementOf(m)), RecycleWhole(u), root))
  {
    var outcome, bin := RecycleGroup(m, u, now, root);
    FewerFlags(old(m.groups), m.groups);
    OneMoreKey(old(m.groups), m.groups, u);
    OneBin(old(m.groups), bin, u);
    if outcome == Done && GroupTree(m.groups, root) && old(Flagged(PlacementOf(m))) {
      MoveKeepsFlagsExactly(old(m.groups), m.entries, root, u, m.groups[u], bin.value);
    }
  }

  lemma OneBin(groups: map<Uuid, GroupRow>, bin: Option<Uuid>, u: Uuid)
    requires AtMostOneBin(groups) && (bin.Some? ==> IsBin(groups, bin.value))
    ensures bin.Some? ==> forall b :: IsBin(groups, b) <==> b == bin.value
    ensures bin.Some? ==> (HoldsBin(groups, u) <==> Within(ParentsOf(groups), bin.value, u))
  {
  }

  method ReorderStep(m: Mirror, u: Uuid, position: nat, now: int, ghost root: Uuid)
    requires Orderly(PlacementOf(m), root)
    modifies m`groups, m`mutationSeq
    ensures Orderly(PlacementOf(m), root) && |m.groups| <= |old(m.groups)| + 1
    ensures old(Flagged(PlacementOf(m))) ==> Flagged(PlacementOf(m))
  {
    var outcome, siblings, _, _ := ReorderGroup(m, u, position, now, root);
    if outcome == Done {
      SameColumns(old(m.groups), m.groups, siblings, u, now);
    }
    FewerFlags(old(m.groups), m.groups);
    OneMoreKey(old(m.groups), m.groups, u);
    AroundEntries(old(PlacementOf(m)), PlacementOf(m), root);
  }

  lemma SameColumns(before: map<Uuid, GroupRow>, after: map<Uuid, GroupRow>, s: seq<Uuid>, u: Uuid, now: int)
    requires SameButOrder(before, after, s, u, now)
    ensures forall v :: v in after ==> v in before && after[v].isRecycleBin == before[v].isRecycleBin && after[v].parent == before[v].parent
  {
    forall v | v in before ensures after[v].isRecycleBin == before[v].isRecycleBin && after[v].parent == before[v].parent {
      if v in s {
        var i :| 0 <= i < |s| && s[i] == v;
      }
    }
  }

  method PurgeStep(m: Mirror, op: Op, now: int, ghost root: Uuid)
    requires (op.Delete? && op.group != root) || op.EmptyBin?
    requires Orderly(PlacementOf(m), root)
    modifies m`groups, m`entries, m`tombstones, m`mutationSeq
    ensures Orderly(PlacementOf(m), root) && |m.groups| <= |old(m.groups)| + 1
    ensures old(Flagged(PlacementOf(m))) ==> Flagged(PlacementOf(m))
  {
    if op.Delete? {
      var _ := DeleteGroup(m, op.group, now, root);
    } else {
      var _, _, _ := EmptyRecycleBin(m, now, root);
    }
    FewerFlags(old(m.groups), m.groups);
    OneMoreKey(old(m.groups), m.groups, root);
    AroundEntries(old(PlacementOf(m)), PlacementOf(m), root);
  }

  method RecycleStep(m: Mirror, op: Op, now: int, ghost root: Uuid)
    requires op.Recycle? && Orderly(PlacementOf(m), root) && |m.groups| <= MAX_WALK
    modifies m`groups, m`entries, m`tombstones, m`settings, m`mutationSeq
    ensures Orderly(PlacementOf(m), root) && |m.groups| <= |old(m.groups)| + 1
    ensures old(Flagged(PlacementOf(m))) ==> Flagged(PlacementOf(m))
  {
    var outcome := RecycleEntry(m, op.entry, now, op.newBin, root);
    if outcome.IntoBin? {
      BinIsInside(m.groups, outcome.bin);
    }
  }

  method RestoreStep(m: Mirror, u: Uuid, now: int, ghost root: Uuid)
    requires Orderly(PlacementOf(m), root) && |m.groups| <= MAX_WALK
    modifies m`entries, m`mutationSeq
    ensures Orderly(PlacementOf(m), root)
    ensures old(Flagged(PlacementOf(m))) ==> (Flagged(PlacementOf(m)) <==> !Crosses(old(PlacementOf(m)), Restore(u), root))
  {
    ghost var before := m.entries;
    var found := RestoreEntry(m, u, now, root);
    RootInBin(m.groups, root);
    if found && IsBin(m.groups, root) {
      EverythingInBin(m.groups, root, before[u].group);
      if before[u].entry.previousParent.Some? && before[u].entry.previousParent.value in m.groups {
        EverythingInBin(m.groups, root, before[u].entry.previousParent.value);
      }
      assert m.entries[u].group == root && !m.entries[u].isRecycled;
    }
  }

  lemma RootInBin(groups: map<Uuid, GroupRow>, root: Uuid)
    requires GroupTree(groups, root)
    ensures InBin(groups, root) <==> IsBin(groups, root)
  {
    InBinStep(groups, root);
  }

  lemma EverythingInBin(groups: map<Uuid, GroupRow>, root: Uuid, g: Uuid)
    requires GroupTree(groups, root) && IsBin(groups, root) && g in groups
    ensures InBin(groups, g)
  {
    RootStays(groups, root, g);
  }

  // ----- runs

  method Step(m: Mirror, op: Op, now: int, ghost root: Uuid)
    requires Orderly(PlacementOf(m), root) && op != Delete(root)
    requires op.Recycle? || op.Restore? ==> |m.groups| <= MAX_WALK
    modifies m`groups, m`entries, m`tombstones, m`settings, m`mutationSeq
    ensures |m.groups| <= |old(m.groups)| + 1
    ensures GroupTree(m.groups, root) <==> !TakesBin(old(PlacementOf(m)), op)
    ensures GroupTree(m.groups, root) ==> Orderly(PlacementOf(m), root)
    ensures GroupTree(m.groups, root) && old(Flagged(PlacementOf(m))) ==>
              (Flagged(PlacementOf(m)) <==> !Crosses(old(PlacementOf(m)), op, root))
  {
    match op
    case Create(_, _, _, _, _, _) => CreateStep(m, op, now, root);
    case Move(u, to) => MoveStep(m, u, to, now, root);
    case Reorder(u, position) => ReorderStep(m, u, position, now, root);
    case Delete(_) => PurgeStep(m, op, now, root);
    case EmptyBin => PurgeStep(m, op, now, root);
    case RecycleWhole(u) => RecycleWholeStep(m, u, now, root);
    case Recycle(_, _) => RecycleStep(m, op, now, root);
    case Restore(u) => RestoreStep(m, u, now, root);
  }

  /** What a caller can check before the operation. */
  method WillTakeBin(m: Mirror, op: Op, ghost root: Uuid) returns (breaks: bool)
    requires Orderly(PlacementOf(m), root)
    ensures breaks <==> TakesBin(PlacementOf(m), op)
  {
    if !op.RecycleWhole? || op.group !in m.groups {
      return false;
    }
    var bin := RecycleBinUuid(m.groups);
    OneBin(m.groups, bin, op.group);
    if bin.None? || bin == Some(op.group) {
      return false;
    }
    breaks := IsInside(m.groups, bin.value, op.group, root);
  }

  /** `trace` are the placements before each operation of the run, and the last. */
  ghost predicate KeptUpTo(trace: seq<Placement>, ops: seq<Op>, root: Uuid, n: nat)
    requires n <= |ops| && n < |trace|
  {
    && (forall i :: 0 <= i <= n ==> Orderly(trace[i], root))
    && (forall i :: 0 <= i < n ==> !TakesBin(trace[i], ops[i]))
  }

  ghost predicate FlaggedUpTo(trace: seq<Placement>, n: nat)
    requires n < |trace|
  {
    forall i :: 0 <= i <= n ==> Flagged(trace[i])
  }

  ghost predicate CrossedUpTo(trace: seq<Placement>, ops: seq<Op>, root: Uuid, n: nat)
    requires n <= |ops| && n < |trace|
  {
    exists i :: 0 <= i < n && Crosses(trace[i], ops[i], root)
  }

  /** Any run of these operations that spares the root keeps the groups one finite
      tree under it, with every entry in a group that exists and at most one bin, up
      to the first that recycles a group with the bin inside it: that one breaks the
      tree. So all are kept exactly if there is none. As far as they are, entries'
      flags that are exact at the start stay exact all along if and only if no
      operation carries an entry across the border of the bin. Only recycling and
      restoring entries walk up to the bin, so only they need the tree to stay below
      the depth at which that walk gives up. */
  method Run(m: Mirror, ops: seq<Op>, now: int, ghost root: Uuid) returns (done: nat, ghost trace: seq<Placement>)
    requires Orderly(PlacementOf(m), root)
    requires forall i :: 0 <= i < |ops| ==> ops[i] != Delete(root)
    requires forall i :: 0 <= i < |ops| && (ops[i].Recycle? || ops[i].Restore?) ==> |m.groups| + |ops| <= MAX_WALK
    modifies m`groups, m`entries, m`tombstones, m`settings, m`mutationSeq
    ensures done <= |ops| && |trace| == done + 1 && trace[0] == old(PlacementOf(m))
    ensures KeptUpTo(trace, ops, root, done)
    ensures done == |ops| ==> trace[done] == PlacementOf(m)
    ensures done < |ops| ==> TakesBin(trace[done], ops[done]) && !GroupTree(m.groups, root)
    ensures FlagsTell(trace, ops, root, done)
  {
    trace := [PlacementOf(m)];
    done := 0;
    while done < |ops|
      invariant done <= |ops| && |trace| == done + 1 && trace[0] == old(PlacementOf(m)) && trace[done] == PlacementOf(m)
      invariant KeptUpTo(trace, ops, root, done) && |m.groups| <= |old(m.groups)| + done
      invariant FlagsTell(trace, ops, root, done)
    {
      assert Orderly(trace[done], root);
      var breaks := WillTakeBin(m, ops[done], root);
      Step(m, ops[done], now, root);
      if breaks {
        return;
      }
      KeptOneMore(trace, PlacementOf(m), ops, root, done);
      FlagsTellMore(trace, PlacementOf(m), ops, root, done);
      trace := trace + [PlacementOf(m)];
      done := done + 1;
    }
  }

  lemma KeptOneMore(trace: seq<Placement>, next: Placement, ops: seq<Op>, root: Uuid, n: nat)
    requires n < |ops| && |trace| == n + 1
    requires KeptUpTo(trace, ops, root, n) && !TakesBin(trace[n], ops[n]) && Orderly(next, root)
    ensures KeptUpTo(trace + [next], ops, root, n + 1)
  {
    var more := trace + [next];
    forall i | 0 <= i <= n + 1 ensures Orderly(more[i], root) {
      assert more[i] == if i <= n then trace[i] else next;
    }
    forall i | 0 <= i < n + 1 ensures !TakesBin(more[i], ops[i]) {
      assert more[i] == trace[i];
    }
  }

  /** The flags so far: exact all along just if nothing crossed. */
  ghost predicate FlagsTell(trace: seq<Placement>, ops: seq<Op>, root: Uuid, n: nat)
    requires n <= |ops| && n < |trace|
  {
    Flagged(trace[0]) ==> (FlaggedUpTo(trace, n) <==> !CrossedUpTo(trace, ops, root, n))
  }

  lemma FlagsTellMore(trace: seq<Placement>, next: Placement, ops: seq<Op>, root: Uuid, n: nat)
    requires n < |ops| && |trace| == n + 1 && FlagsTell(trace, ops, root, n)
    requires Flagged(trace[n]) ==> (Flagged(next) <==> !Crosses(trace[n], ops[n], root))
    ensures FlagsTell(trace + [next], ops, root, n + 1)
  {
    FlaggedOneMore(trace, next, n);
    CrossedOneMore(trace, next, ops, root, n);
  }

  lemma FlaggedOneMore(trace: seq<Placement>, next: Placement, n: nat)
    requires |trace| == n + 1
    ensures FlaggedUpTo(trace + [next], n + 1) <==> FlaggedUpTo(trace, n) && Flagged(next)
    ensures FlaggedUpTo(trace, n) ==> Flagged(trace[n])
  {
    var more := trace + [next];
    assert more[n + 1] == next;
    assert forall i :: 0 <= i <= n ==> more[i] == trace[i];
  }

  lemma CrossedOneMore(trace: seq<Placement>, next: Placement, ops: seq<Op>, root: Uuid, n: nat)
    requires n < |ops| && |trace| == n + 1
    ensures CrossedUpTo(trace + [next], ops, root, n + 1) <==> CrossedUpTo(trace, ops, root, n) || Crosses(trace[n], ops[n], root)
  {
    var more := trace + [next];
    assert forall i :: 0 <= i <= n ==> more[i] == trace[i];
    if i :| 0 <= i < n && Crosses(trace[i], ops[i], root) {
      assert Crosses(more[i], ops[i], root);
    }
    if Crosses(trace[n], ops[n], root) {
      assert Crosses(more[n], ops[n], root);
    }
  }
}
