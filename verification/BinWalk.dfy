/** The recycle-bin flag and membership of the bin's subtree. */
module BinWalk {
  import opened Order
  import opened GroupGraph
  import opened Store

  /** Ancestor walks give up after this many groups. */
  const MAX_WALK: nat := 10_000

  ghost predicate AtMostOneBin(groups: map<Uuid, GroupRow>) {
    exists bin: Option<Uuid> :: OnlyBin(groups, bin)
  }

  ghost predicate OnlyBin(groups: map<Uuid, GroupRow>, bin: Option<Uuid>) {
    forall u :: u in groups && groups[u].isRecycleBin ==> bin == Some(u)
  }

  /** A change that flags no group anew keeps the bin unique. */
  lemma FewerFlags(before: map<Uuid, GroupRow>, after: map<Uuid, GroupRow>)
    requires AtMostOneBin(before)
    requires forall u :: u in after && after[u].isRecycleBin ==> u in before && before[u].isRecycleBin
    ensures AtMostOneBin(after)
  {
    var bin: Option<Uuid> :| OnlyBin(before, bin);
    assert OnlyBin(after, bin);
  }

  ghost predicate IsBin(groups: map<Uuid, GroupRow>, u: Uuid) {
    u in groups && groups[u].isRecycleBin
  }

  /** `g` is the bin or sits somewhere inside it. */
  ghost predicate InBin(groups: map<Uuid, GroupRow>, g: Uuid) {
    exists bin :: IsBin(groups, bin) && Within(ParentsOf(groups), g, bin)
  }

  /** One step of the walk to the bin. */
  lemma InBinStep(groups: map<Uuid, GroupRow>, g: Uuid)
    requires g in groups
    ensures InBin(groups, g) <==> IsBin(groups, g) || (groups[g].parent.Some? && InBin(groups, groups[g].parent.value))
  {
    var p := ParentsOf(groups);
    if b: Uuid :| IsBin(groups, b) && Within(p, g, b) {
      var n: nat :| Ancestor(p, g, n) == Some(b);
      if n > 0 {
        assert Ancestor(p, p[g], n - 1) == Some(b);
        assert Within(p, p[g], b);
      }
    }
    if IsBin(groups, g) {
      WithinSelf(p, g);
    }
    if groups[g].parent.Some? && InBin(groups, groups[g].parent.value) {
      var b :| IsBin(groups, b) && Within(p, p[g], b);
      WithinChild(p, g, b);
    }
  }

  /** Where both trees hold a group and all above it, they agree on its ancestors. */
  lemma {:induction false} SameAncestors(groups: map<Uuid, GroupRow>, merged: map<Uuid, GroupRow>, root: Uuid, u: Uuid, n: nat)
    requires GroupsClosed(groups, root) && GroupsClosed(merged, root) && u in groups
    requires groups.Keys <= merged.Keys && forall g :: g in groups ==> groups[g].parent == merged[g].parent
    ensures Ancestor(ParentsOf(groups), u, n) == Ancestor(ParentsOf(merged), u, n)
    ensures Ancestor(ParentsOf(groups), u, n).Some? ==> Ancestor(ParentsOf(groups), u, n).value in groups
    decreases n
  {
    if n > 0 && u != root {
      SameAncestors(groups, merged, root, groups[u].parent.value, n - 1);
    }
  }

  /** So they agree on being inside the bin, where they agree on the flags. */
  lemma SameInBin(groups: map<Uuid, GroupRow>, merged: map<Uuid, GroupRow>, root: Uuid, g: Uuid)
    requires GroupsClosed(groups, root) && GroupsClosed(merged, root) && g in groups && groups.Keys <= merged.Keys
    requires forall u :: u in groups ==> groups[u].parent == merged[u].parent && groups[u].isRecycleBin == merged[u].isRecycleBin
    ensures InBin(groups, g) <==> InBin(merged, g)
  {
    var p, q := ParentsOf(groups), ParentsOf(merged);
    if InBin(groups, g) {
      var b: Uuid :| IsBin(groups, b) && Within(p, g, b);
      var n: nat :| Ancestor(p, g, n) == Some(b);
      SameAncestors(groups, merged, root, g, n);
      assert IsBin(merged, b) && Within(q, g, b);
    }
    if InBin(merged, g) {
      var b: Uuid :| IsBin(merged, b) && Within(q, g, b);
      var n: nat :| Ancestor(q, g, n) == Some(b);
      SameAncestors(groups, merged, root, g, n);
      assert IsBin(groups, b) && Within(p, g, b);
    }
  }

  method RecycleBinUuid(groups: map<Uuid, GroupRow>) returns (bin: Option<Uuid>)
    ensures bin.Some? ==> IsBin(groups, bin.value)
    ensures bin.None? ==> forall u :: !IsBin(groups, u)
  {
    var flagged := set u | u in groups && groups[u].isRecycleBin;
    if flagged == {} {
      assert forall u :: IsBin(groups, u) ==> u in flagged;
      return None;
    }
    var u :| u in flagged;
    return Some(u);
  }

  /** The bottom-up test: walk the parents of `g` looking for the bin. It
      answers for every table of at most `MAX_WALK` groups. */
  method GroupInBinSubtree(groups: map<Uuid, GroupRow>, g: Uuid, ghost root: Uuid) returns (inside: bool)
    requires GroupTree(groups, root) && AtMostOneBin(groups) && g in groups
    ensures |groups| <= MAX_WALK ==> (inside <==> InBin(groups, g))
  {
    var bin := RecycleBinUuid(groups);
    if bin.None? {
      return false;
    }
    var cur := Some(g);
    for step := 0 to MAX_WALK
      invariant OnWalk(groups, g, bin.value, cur, step)
    {
      if cur.None? {
        NotInBin(groups, g, bin.value, step);
        return false;
      }
      if cur == bin {
        assert Within(ParentsOf(groups), g, bin.value);
        return true;
      }
      StepUp(groups, root, g, bin.value, cur.value, step);
      cur := groups[cur.value].parent;
    }
    if |groups| <= MAX_WALK {
      LongWalk(groups, root, g);
      NotInBin(groups, g, bin.value, MAX_WALK);
    }
    return false;
  }

  /** The walk from `g` stands on `cur` and has not met `bin` below it. */
  ghost predicate OnWalk(groups: map<Uuid, GroupRow>, g: Uuid, bin: Uuid, cur: Option<Uuid>, step: nat) {
    && cur == Ancestor(ParentsOf(groups), g, step)
    && (cur.Some? ==> cur.value in groups)
    && forall k: nat :: k < step ==> Ancestor(ParentsOf(groups), g, k) != Some(bin)
  }

  lemma StepUp(groups: map<Uuid, GroupRow>, root: Uuid, g: Uuid, bin: Uuid, cur: Uuid, step: nat)
    requires GroupsClosed(groups, root) && OnWalk(groups, g, bin, Some(cur), step) && cur != bin
    ensures OnWalk(groups, g, bin, groups[cur].parent, step + 1)
  {
    var p := ParentsOf(groups);
    AncestorSplit(p, g, step, 1);
    assert cur in p ==> Ancestor(p, cur, 1) == Ancestor(p, p[cur], 0);
  }

  lemma LongWalk(groups: map<Uuid, GroupRow>, root: Uuid, g: Uuid)
    requires GroupTree(groups, root) && g in groups && |groups| <= MAX_WALK
    ensures Ancestor(ParentsOf(groups), g, MAX_WALK) == None
  {
    var p := ParentsOf(groups);
    GroupsClosedParents(groups, root);
    AcyclicIsTree(p, root);
    assert |p.Keys| == |groups.Keys - {root}| == |groups.Keys| - 1;
    if Ancestor(p, g, MAX_WALK).Some? {
      WalkBounded(p, g, MAX_WALK);
    }
  }

  lemma NotInBin(groups: map<Uuid, GroupRow>, g: Uuid, bin: Uuid, step: nat)
    requires AtMostOneBin(groups) && IsBin(groups, bin)
    requires Ancestor(ParentsOf(groups), g, step) == None
    requires forall k: nat :: k < step ==> Ancestor(ParentsOf(groups), g, k) != Some(bin)
    ensures !InBin(groups, g)
  {
    var p := ParentsOf(groups);
    if InBin(groups, g) {
      var b :| IsBin(groups, b) && Within(p, g, b);
      var only :| OnlyBin(groups, only);
      assert b == bin;
      var n: nat :| Ancestor(p, g, n) == Some(bin);
      AncestorPrefix(p, g, if step <= n then step else n, n);
    }
  }

  /** Every flag equals the ancestor walk. */
  ghost predicate FlagsExact(groups: map<Uuid, GroupRow>, entries: map<Uuid, EntryRow>) {
    forall e :: e in entries ==> (entries[e].isRecycled <==> InBin(groups, entries[e].group))
  }

  // ----- designating the bin

  /** The table with exactly `bin` flagged, or nothing. */
  function Flagged(groups: map<Uuid, GroupRow>, bin: Option<Uuid>): map<Uuid, GroupRow> {
    map u | u in groups :: groups[u].(isRecycleBin := bin == Some(u))
  }

  /** Flag one group and clear the flag everywhere else. Every row whose flag is
      written counts as a write, changed or not. */
  method WriteRecycleBinGroup(m: Mirror, bin: Uuid)
    requires bin in m.groups
    modifies m`groups, m`mutationSeq
    ensures m.groups == Flagged(old(m.groups), Some(bin))
    ensures AtMostOneBin(m.groups)
    ensures m.mutationSeq > old(m.mutationSeq)
  {
    var stale := set u | u in m.groups && m.groups[u].isRecycleBin && u != bin;
    m.mutationSeq := m.mutationSeq + |stale| + 1;
    m.groups := map u | u in m.groups :: if u in stale then m.groups[u].(isRecycleBin := false) else m.groups[u];
    m.groups := m.groups[bin := m.groups[bin].(isRecycleBin := true)];
    assert OnlyBin(m.groups, Some(bin));
  }

  method ClearRecycleBinGroup(m: Mirror)
    modifies m`groups, m`mutationSeq
    ensures m.groups == Flagged(old(m.groups), None)
    ensures AtMostOneBin(m.groups)
    ensures m.mutationSeq >= old(m.mutationSeq)
  {
    var stale := set u | u in m.groups && m.groups[u].isRecycleBin;
    m.mutationSeq := m.mutationSeq + |stale|;
    m.groups := map u | u in m.groups :: if u in stale then m.groups[u].(isRecycleBin := false) else m.groups[u];
    assert OnlyBin(m.groups, None);
  }

  /** Flags do not touch the tree. */
  lemma FlagsKeepTree(groups: map<Uuid, GroupRow>, bin: Option<Uuid>)
    ensures ParentsOf(Flagged(groups, bin)) == ParentsOf(groups)
  {
  }
}
