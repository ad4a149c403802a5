/** Moving a group across the border of the bin. */
module BinBorder {
  import opened Order
  import opened GroupGraph
  import opened Store
  import opened BinWalk
  import opened GroupTombstones
  import opened GroupOps

  /** `row` puts `u` under `to`, which is not inside `u`. */
  ghost predicate Replaces(groups: map<Uuid, GroupRow>, root: Uuid, u: Uuid, row: GroupRow, to: Uuid) {
    && GroupTree(groups, root) && u in groups && to in groups && !Within(ParentsOf(groups), to, u)
    && row.parent == Some(to) && row.isRecycleBin == groups[u].isRecycleBin
  }

  ghost predicate HoldsBin(groups: map<Uuid, GroupRow>, u: Uuid) {
    exists b :: IsBin(groups, b) && Within(ParentsOf(groups), b, u)
  }

  /** Nothing changes for what is not inside the moved group. */
  lemma OutsideStays(groups: map<Uuid, GroupRow>, root: Uuid, u: Uuid, row: GroupRow, to: Uuid, g: Uuid)
    requires Replaces(groups, root, u, row, to) && g in groups && !Within(ParentsOf(groups), g, u)
    ensures InBin(groups[u := row], g) <==> InBin(groups, g)
  {
    var p, q, after := ParentsOf(groups), ParentsOf(groups[u := row]), groups[u := row];
    assert q == p[u := to];
    forall n: nat ensures Ancestor(q, g, n) == Ancestor(p, g, n) {
      forall k: nat | k < n ensures Ancestor(p, g, k) != Some(u) {
        assert Ancestor(p, g, k) == Some(u) ==> Within(p, g, u);
      }
      AncestorAvoids(p, u, to, g, n);
    }
    forall b: Uuid ensures Within(q, g, b) <==> Within(p, g, b) {
      SameWithin(p, q, g, b);
    }
    assert forall b: Uuid :: IsBin(after, b) <==> IsBin(groups, b);
  }

  lemma SameWithin(p: Parents, q: Parents, g: Uuid, b: Uuid)
    requires forall n: nat :: Ancestor(q, g, n) == Ancestor(p, g, n)
    ensures Within(q, g, b) <==> Within(p, g, b)
  {
    if Within(p, g, b) {
      var n: nat :| Ancestor(p, g, n) == Some(b);
      assert Ancestor(q, g, n) == Some(b);
    }
    if Within(q, g, b) {
      var n: nat :| Ancestor(q, g, n) == Some(b);
      assert Ancestor(p, g, n) == Some(b);
    }
  }

  /** A group that holds the bin is outside it, unless it is the bin. */
  lemma AboveBin(groups: map<Uuid, GroupRow>, root: Uuid, u: Uuid, g: Uuid)
    requires GroupTree(groups, root) && AtMostOneBin(groups) && HoldsBin(groups, u) && g in groups && InBin(groups, g)
    ensures Within(ParentsOf(groups), g, u)
  {
    var b: Uuid :| IsBin(groups, b) && Within(ParentsOf(groups), b, u);
    var c: Uuid :| IsBin(groups, c) && Within(ParentsOf(groups), g, c);
    assert b == c;
    WithinTransitive(ParentsOf(groups), g, b, u);
  }

  /** For what is inside it: if it holds the bin nothing changes, else all of it is
      where the moved group is. */
  lemma {:induction false} InsideGoesAlong(groups: map<Uuid, GroupRow>, root: Uuid, u: Uuid, row: GroupRow, to: Uuid, g: Uuid, n: nat)
    requires Replaces(groups, root, u, row, to) && AtMostOneBin(groups) && g in groups
    requires Ancestor(ParentsOf(groups), g, n) == Some(u)
    ensures HoldsBin(groups, u) ==> (InBin(groups[u := row], g) <==> InBin(groups, g))
    ensures !HoldsBin(groups, u) ==> (InBin(groups, g) <==> InBin(groups, u)) && (InBin(groups[u := row], g) <==> InBin(groups, to))
    decreases n
  {
    var p, after := ParentsOf(groups), groups[u := row];
    InBinStep(groups, g);
    InBinStep(after, g);
    assert Within(p, g, u);
    if g == u {
      TopGoes(groups, root, u, row, to);
    } else {
      InsideGoesAlong(groups, root, u, row, to, p[g], n - 1);
    }
  }

  lemma TopGoes(groups: map<Uuid, GroupRow>, root: Uuid, u: Uuid, row: GroupRow, to: Uuid)
    requires Replaces(groups, root, u, row, to) && AtMostOneBin(groups)
    ensures HoldsBin(groups, u) ==> (InBin(groups[u := row], u) <==> InBin(groups, u))
    ensures !HoldsBin(groups, u) ==> (InBin(groups[u := row], u) <==> InBin(groups, to))
  {
    var p := ParentsOf(groups);
    WithinSelf(p, u);
    InBinStep(groups, u);
    InBinStep(groups[u := row], u);
    OutsideStays(groups, root, u, row, to, to);
    if HoldsBin(groups, u) {
      if InBin(groups, to) {
        AboveBin(groups, root, u, to);
      }
      if groups[u].parent.Some? && InBin(groups, groups[u].parent.value) {
        AboveBin(groups, root, u, groups[u].parent.value);
        ParentNotInside(groups, root, u);
      }
    }
  }

  lemma ParentNotInside(groups: map<Uuid, GroupRow>, root: Uuid, u: Uuid)
    requires GroupTree(groups, root) && u in groups && groups[u].parent.Some?
    ensures !Within(ParentsOf(groups), groups[u].parent.value, u)
  {
    var p := ParentsOf(groups);
    GroupsClosedParents(groups, root);
    AcyclicIsTree(p, root);
    var x := groups[u].parent.value;
    assert !OnCycle(p, u) && p[u] == x;
    forall n: nat ensures Ancestor(p, x, n) != Some(u) {
      assert Ancestor(p, u, n + 1) == Ancestor(p, x, n);
    }
    assert !Within(p, x, u);
  }

  /** The move takes some entry across the border of the bin: the group has an entry
      inside it and not the bin, and only one of it and its destination is in the
      bin. */
  ghost predicate CarriesAcross(groups: map<Uuid, GroupRow>, entries: map<Uuid, EntryRow>, u: Uuid, to: Uuid) {
    && (exists e :: e in entries && Within(ParentsOf(groups), entries[e].group, u))
    && !HoldsBin(groups, u)
    && InBin(groups, u) != InBin(groups, to)
  }

  /** No operation on a group writes the flags of entries: they stay exact exactly if
      it carries none across. */
  lemma MoveKeepsFlagsExactly(groups: map<Uuid, GroupRow>, entries: map<Uuid, EntryRow>, root: Uuid, u: Uuid, row: GroupRow, to: Uuid)
    requires Replaces(groups, root, u, row, to) && AtMostOneBin(groups) && Resolves(groups, entries) && FlagsExact(groups, entries)
    ensures FlagsExact(groups[u := row], entries) <==> !CarriesAcross(groups, entries, u, to)
  {
    var p, after := ParentsOf(groups), groups[u := row];
    forall e | e in entries
      ensures InBin(after, entries[e].group) == (if Within(p, entries[e].group, u) && !HoldsBin(groups, u) then InBin(groups, to) else InBin(groups, entries[e].group))
      ensures Within(p, entries[e].group, u) && !HoldsBin(groups, u) ==> InBin(groups, entries[e].group) == InBin(groups, u)
    {
      var g := entries[e].group;
      if n: nat :| Ancestor(p, g, n) == Some(u) {
        InsideGoesAlong(groups, root, u, row, to, g, n);
      } else {
        OutsideStays(groups, root, u, row, to, g);
      }
    }
  }
}
