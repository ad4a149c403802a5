/** What walking a vault's tree visits. */
module VaultTree {
  import opened Order
  import opened Store
  import opened GroupSync
  import opened EntrySync

  /** `f` is the child of `parent` at its position. */
  ghost predicate ChildAt(f: FlatGroup, parent: GroupNode) {
    f.parent == Some(parent.id) && 0 <= f.sortOrder < |parent.groups| && parent.groups[f.sortOrder] == f.node
  }

  /** Every group but the first is listed with its parent and its position there. */
  ghost predicate WellPlaced(flat: seq<FlatGroup>) {
    forall i :: 1 <= i < |flat| ==> exists j :: 0 <= j < i && ChildAt(flat[i], flat[j].node)
  }

  /** And every child of every group is listed. */
  ghost predicate Complete(flat: seq<FlatGroup>) {
    forall j, k :: 0 <= j < |flat| && 0 <= k < |flat[j].node.groups| ==> Listed(flat, flat[j].node, k)
  }

  ghost predicate Listed(flat: seq<FlatGroup>, parent: GroupNode, k: nat)
    requires k < |parent.groups|
  {
    exists i :: 0 <= i < |flat| && flat[i] == FlatGroup(parent.groups[k], Some(parent.id), k)
  }

  lemma {:induction false} CollectVisits(group: GroupNode, parent: Option<Uuid>, sortOrder: int)
    ensures var flat := Collect(group, parent, sortOrder);
            flat[0] == FlatGroup(group, parent, sortOrder) && WellPlaced(flat) && Complete(flat)
    decreases group, 1
  {
    var flat, rest := Collect(group, parent, sortOrder), CollectChildren(group.groups, group.id, 0);
    ChildrenVisited(group, 0);
    assert group.groups[0..] == group.groups;
    assert forall i :: 0 <= i < |rest| ==> flat[i + 1] == rest[i];
    forall i | 1 <= i < |flat| ensures exists j :: 0 <= j < i && ChildAt(flat[i], flat[j].node) {
      if ChildAt(rest[i - 1], group) {
        assert flat[0].node == group;
      } else {
        var j :| 0 <= j < i - 1 && ChildAt(rest[i - 1], rest[j].node);
        assert flat[j + 1] == rest[j];
      }
    }
    forall j, k | 0 <= j < |flat| && 0 <= k < |flat[j].node.groups| ensures Listed(flat, flat[j].node, k) {
      assert Listed(rest, flat[j].node, k) by {
        assert j > 0 ==> flat[j] == rest[j - 1];
      }
      var i :| 0 <= i < |rest| && rest[i] == FlatGroup(flat[j].node.groups[k], Some(flat[j].node.id), k);
      assert flat[i + 1] == rest[i];
    }
  }

  /** The children of `group` from position `n` on, with all below them. */
  lemma {:induction false} ChildrenVisited(group: GroupNode, n: nat)
    requires n <= |group.groups|
    ensures var rest := CollectChildren(group.groups[n..], group.id, n);
            && (forall i :: 0 <= i < |rest| ==> ChildAt(rest[i], group) || exists j :: 0 <= j < i && ChildAt(rest[i], rest[j].node))
            && (forall k :: n <= k < |group.groups| ==> Listed(rest, group, k))
            && Complete(rest)
    decreases group, 0, |group.groups| - n
  {
    var rest := CollectChildren(group.groups[n..], group.id, n);
    if n < |group.groups| {
      var child := group.groups[n];
      var first, more := Collect(child, Some(group.id), n), CollectChildren(group.groups[n + 1..], group.id, n + 1);
      assert group.groups[n..][0] == child && group.groups[n..][1..] == group.groups[n + 1..];
      assert rest == first + more;
      CollectVisits(child, Some(group.id), n);
      ChildrenVisited(group, n + 1);
      JoinVisits(group, n, first, more);
    }
  }

  lemma JoinVisits(group: GroupNode, n: nat, first: seq<FlatGroup>, more: seq<FlatGroup>)
    requires n < |group.groups| && |first| > 0 && first[0] == FlatGroup(group.groups[n], Some(group.id), n)
    requires WellPlaced(first) && Complete(first) && Complete(more)
    requires forall i :: 0 <= i < |more| ==> ChildAt(more[i], group) || exists j :: 0 <= j < i && ChildAt(more[i], more[j].node)
    requires forall k :: n + 1 <= k < |group.groups| ==> Listed(more, group, k)
    ensures var rest := first + more;
            && (forall i :: 0 <= i < |rest| ==> ChildAt(rest[i], group) || exists j :: 0 <= j < i && ChildAt(rest[i], rest[j].node))
            && (forall k :: n <= k < |group.groups| ==> Listed(rest, group, k))
            && Complete(rest)
  {
    var rest := first + more;
    forall i | 0 <= i < |rest| ensures ChildAt(rest[i], group) || exists j :: 0 <= j < i && ChildAt(rest[i], rest[j].node) {
      if 1 <= i < |first| {
        var j :| 0 <= j < i && ChildAt(first[i], first[j].node);
        assert rest[j] == first[j];
      } else if i >= |first| && !ChildAt(rest[i], group) {
        var j :| 0 <= j < i - |first| && ChildAt(more[i - |first|], more[j].node);
        assert rest[|first| + j] == more[j];
      }
    }
    forall k | n <= k < |group.groups| ensures Listed(rest, group, k) {
      if k == n {
        assert rest[0] == first[0];
      } else {
        ListedLater(first, more, group, k);
      }
    }
    forall j, k | 0 <= j < |rest| && 0 <= k < |rest[j].node.groups| ensures Listed(rest, rest[j].node, k) {
      if j < |first| {
        assert Listed(first, first[j].node, k);
        var i :| 0 <= i < |first| && first[i] == FlatGroup(rest[j].node.groups[k], Some(rest[j].node.id), k);
        assert rest[i] == first[i];
      } else {
        assert Listed(more, more[j - |first|].node, k);
        ListedLater(first, more, rest[j].node, k);
      }
    }
  }

  lemma ListedLater(first: seq<FlatGroup>, more: seq<FlatGroup>, parent: GroupNode, k: nat)
    requires k < |parent.groups| && Listed(more, parent, k)
    ensures Listed(first + more, parent, k)
  {
    var i :| 0 <= i < |more| && more[i] == FlatGroup(parent.groups[k], Some(parent.id), k);
    assert (first + more)[|first| + i] == more[i];
  }

  /** Flattening lists the root first, then every group below with its parent and its
      position among its siblings. */
  lemma FlattenVisits(root: GroupNode)
    ensures Flatten(root)[0] == FlatGroup(root, None, 0) && WellPlaced(Flatten(root)) && Complete(Flatten(root))
  {
    CollectVisits(root, None, 0);
  }

  // ----- entries

  /** Entry `k` of the group at `i`. */
  ghost predicate EntryOf(p: Placed, flat: seq<FlatGroup>) {
    exists i, k :: 0 <= i < |flat| && 0 <= k < |flat[i].node.entries| && p == Placed(flat[i].node.entries[k], flat[i].node.id)
  }

  lemma {:induction false} EntriesVisited(group: GroupNode, parent: Option<Uuid>, sortOrder: int, p: Placed)
    ensures p in CollectEntries(group) <==> EntryOf(p, Collect(group, parent, sortOrder))
    decreases group, 1
  {
    var flat, rest := Collect(group, parent, sortOrder), CollectChildren(group.groups, group.id, 0);
    EntriesBelowVisited(group.groups, group.id, 0, p);
    OneEntryMore(FlatGroup(group, parent, sortOrder), rest, p);
    assert p in PlaceAll(group.entries, group.id) <==> exists k :: 0 <= k < |group.entries| && p == Placed(group.entries[k], group.id);
  }

  lemma {:induction false} EntriesBelowVisited(groups: seq<GroupNode>, parent: Uuid, position: int, p: Placed)
    ensures p in CollectEntriesBelow(groups) <==> EntryOf(p, CollectChildren(groups, parent, position))
    decreases groups, 0
  {
    if groups != [] {
      EntriesVisited(groups[0], Some(parent), position, p);
      EntriesBelowVisited(groups[1..], parent, position + 1, p);
      EntriesOfBoth(Collect(groups[0], Some(parent), position), CollectChildren(groups[1..], parent, position + 1), p);
    }
  }

  lemma OneEntryMore(first: FlatGroup, rest: seq<FlatGroup>, p: Placed)
    ensures EntryOf(p, [first] + rest) <==>
              EntryOf(p, rest) || exists k :: 0 <= k < |first.node.entries| && p == Placed(first.node.entries[k], first.node.id)
  {
    EntriesOfBoth([first], rest, p);
    if k :| 0 <= k < |first.node.entries| && p == Placed(first.node.entries[k], first.node.id) {
      assert [first][0] == first;
    }
  }

  lemma EntriesOfBoth(a: seq<FlatGroup>, b: seq<FlatGroup>, p: Placed)
    ensures EntryOf(p, a + b) <==> EntryOf(p, a) || EntryOf(p, b)
  {
    var both := a + b;
    if i, k :| 0 <= i < |a| && 0 <= k < |a[i].node.entries| && p == Placed(a[i].node.entries[k], a[i].node.id) {
      assert both[i] == a[i];
    }
    if i, k :| 0 <= i < |b| && 0 <= k < |b[i].node.entries| && p == Placed(b[i].node.entries[k], b[i].node.id) {
      assert both[|a| + i] == b[i];
    }
  }

  /** The entries of a vault are those of its groups, each placed in its own. */
  lemma VaultEntries(root: GroupNode, p: Placed)
    ensures p in CollectEntries(root) <==> EntryOf(p, Flatten(root))
  {
    EntriesVisited(root, None, 0, p);
  }
}
