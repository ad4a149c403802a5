/** Creating, moving, reordering and recycling groups. */
module GroupOps {
  import opened Order
  import opened Sequences
  import opened GroupGraph
  import opened Store
  import opened BinWalk
  import opened GroupTombstones
  import opened GroupDelete

  datatype Outcome = Done | NotFound | CycleDetected | Duplicate

  // ----- placing a group under a parent

  lemma {:induction false} FirstHit(p: Parents, d: Uuid, u: Uuid, n: nat) returns (k: nat)
    requires Ancestor(p, d, n) == Some(u)
    ensures k <= n && Ancestor(p, d, k) == Some(u) && forall j: nat :: j < k ==> Ancestor(p, d, j) != Some(u)
    decreases n
  {
    if j: nat :| j < n && Ancestor(p, d, j) == Some(u) {
      k := FirstHit(p, d, u, j);
    } else {
      k := n;
    }
  }

  lemma {:induction false} StillReaches(p: Parents, x: Uuid, root: Uuid, u: Uuid, d: Uuid, n: nat)
    requires Ancestor(p, d, n) == Some(root) && root !in p && u != root && ReachesRoot(p[u := x], root, x)
    ensures ReachesRoot(p[u := x], root, d)
    decreases n
  {
    var q := p[u := x];
    if d == u {
      var k: nat :| Ancestor(q, x, k) == Some(root);
      assert Ancestor(q, u, k + 1) == Some(root);
    } else if n == 0 {
      assert Ancestor(q, d, 0) == Some(root);
    } else {
      StillReaches(p, x, root, u, p[d], n - 1);
      var k: nat :| Ancestor(q, p[d], k) == Some(root);
      assert Ancestor(q, d, k + 1) == Some(root);
    }
  }

  /** Placing `u`, new or not, under `x` keeps one finite tree if and only if `x`
      is not inside `u`. */
  lemma PlacingKeepsTree(groups: map<Uuid, GroupRow>, u: Uuid, row: GroupRow, x: Uuid, root: Uuid)
    requires GroupTree(groups, root) && row.parent == Some(x) && x in groups
    ensures GroupTree(groups[u := row], root) <==> !Within(ParentsOf(groups), x, u)
  {
    var p := ParentsOf(groups);
    GroupsClosedParents(groups, root);
    assert ParentsOf(groups[u := row]) == p[u := x];
    if u == root {
      WithinSelf(p, root);
      assert x == root || ReachesRoot(p, root, x);
      assert !GroupsClosed(groups[u := row], root);
    } else if Within(p, x, u) {
      InsideIsCycle(p, root, u, x);
    } else {
      OutsideIsTree(p, root, u, x);
      assert GroupsClosed(groups[u := row], root);
    }
  }

  lemma InsideIsCycle(p: Parents, root: Uuid, u: Uuid, x: Uuid)
    requires root !in p && u != root && Within(p, x, u)
    ensures !Tree(p[u := x], root)
  {
    var n: nat :| Ancestor(p, x, n) == Some(u);
    var k := FirstHit(p, x, u, n);
    AncestorAvoids(p, u, x, x, k);
    assert Ancestor(p[u := x], u, k + 1) == Some(u);
    CycleMissesRoot(p[u := x], root, u);
  }

  lemma OutsideIsTree(p: Parents, root: Uuid, u: Uuid, x: Uuid)
    requires Tree(p, root) && u != root && (x in p || x == root) && !Within(p, x, u)
    ensures Tree(p[u := x], root)
  {
    var q := p[u := x];
    var n := Depth(p, root, x);
    AncestorAvoids(p, u, x, x, n);
    assert ReachesRoot(q, root, x);
    forall d | d in q ensures ReachesRoot(q, root, d) {
      if d == u {
        var k: nat :| Ancestor(q, x, k) == Some(root);
        assert Ancestor(q, u, k + 1) == Some(root);
      } else {
        StillReaches(p, x, root, u, d, Depth(p, root, d));
      }
    }
  }

  /** The sort order after the last child: one more than the largest, or 0. */
  ghost predicate IsNextOrder(groups: map<Uuid, GroupRow>, parent: Uuid, next: int) {
    if ChildrenOf(groups, parent) == {} then next == 0
    else && (exists c :: c in ChildrenOf(groups, parent) && groups[c].sortOrder + 1 == next)
         && (forall c :: c in ChildrenOf(groups, parent) ==> groups[c].sortOrder < next)
  }

  method NextSortOrder(groups: map<Uuid, GroupRow>, parent: Uuid) returns (next: int)
    ensures IsNextOrder(groups, parent, next)
  {
    next := 0;
    var all := set c | c in groups && groups[c].parent == Some(parent);
    assert all == ChildrenOf(groups, parent);
    var rest := all;
    while rest != {}
      invariant rest <= all
      invariant all - rest == {} ==> next == 0
      invariant all - rest != {} ==> exists c :: c in all - rest && groups[c].sortOrder + 1 == next
      invariant forall c :: c in all - rest ==> groups[c].sortOrder < next
    {
      var c :| c in rest;
      if rest == all || groups[c].sortOrder >= next {
        next := groups[c].sortOrder + 1;
      }
      assert c in all - (rest - {c});
      rest := rest - {c};
    }
    assert all - {} == all;
  }

  method CreateGroup(m: Mirror, parent: Uuid, id: Uuid, name: string, notes: string, icon: int, customIcon: Option<Uuid>,
                     now: int, ghost root: Uuid) returns (outcome: Outcome)
    requires GroupTree(m.groups, root)
    modifies m`groups, m`mutationSeq
    ensures outcome == NotFound <==> parent !in old(m.groups)
    ensures outcome == Duplicate <==> parent in old(m.groups) && id in old(m.groups)
    ensures outcome == Done || outcome == NotFound || outcome == Duplicate
    ensures outcome != Done ==> m.groups == old(m.groups) && m.mutationSeq == old(m.mutationSeq)
    ensures outcome == Done ==>
      exists next ::
        && IsNextOrder(old(m.groups), parent, next)
        && m.groups == old(m.groups)[id := GroupRow(Some(parent), name, notes, icon, customIcon, now, None, false, next)]
    ensures GroupTree(m.groups, root)
  {
    if parent !in m.groups {
      return NotFound;
    }
    var next := NextSortOrder(m.groups, parent);
    if id in m.groups {
      return Duplicate;
    }
    var row := GroupRow(Some(parent), name, notes, icon, customIcon, now, None, false, next);
    NewIsOutside(m.groups, root, parent, id);
    PlacingKeepsTree(m.groups, id, row, parent, root);
    m.groups := m.groups[id := row];
    m.mutationSeq := m.mutationSeq + 1;
    outcome := Done;
  }

  lemma NewIsOutside(groups: map<Uuid, GroupRow>, root: Uuid, x: Uuid, id: Uuid)
    requires GroupTree(groups, root) && x in groups && id !in groups
    ensures !Within(ParentsOf(groups), x, id)
  {
    var p := ParentsOf(groups);
    GroupsClosedParents(groups, root);
    forall n: nat ensures Ancestor(p, x, n) != Some(id) {
      if Ancestor(p, x, n).Some? {
        AncestorIsGroup(p, root, x, n);
      }
    }
  }

  // ----- moving

  /** Is `x` inside `u`? Walks up from `x`. */
  method IsInside(groups: map<Uuid, GroupRow>, x: Uuid, u: Uuid, ghost root: Uuid) returns (inside: bool)
    requires GroupTree(groups, root) && x in groups
    ensures inside <==> Within(ParentsOf(groups), x, u)
  {
    ghost var p := ParentsOf(groups);
    GroupsClosedParents(groups, root);
    AcyclicIsTree(p, root);
    var cursor := Some(x);
    ghost var step: nat := 0;
    while cursor.Some?
      invariant OnWalk(groups, x, u, cursor, step)
      decreases |p| + 1 - step, cursor.Some?
    {
      if cursor.value == u {
        return true;
      }
      WalkBounded(p, x, step);
      StepUp(groups, root, x, u, cursor.value, step);
      cursor := groups[cursor.value].parent;
      step := step + 1;
    }
    forall n: nat ensures Ancestor(p, x, n) != Some(u) {
      if n >= step && Ancestor(p, x, n).Some? {
        AncestorPrefix(p, x, step, n);
      }
    }
    return false;
  }

  /** Moving succeeds exactly when both groups exist and the destination is not
      inside the moved group; it appends the group to its new siblings. */
  method MoveGroup(m: Mirror, u: Uuid, to: Uuid, now: int, ghost root: Uuid) returns (outcome: Outcome)
    requires GroupTree(m.groups, root)
    modifies m`groups, m`mutationSeq
    ensures outcome == Done <==> u in old(m.groups) && to in old(m.groups) && !Within(ParentsOf(old(m.groups)), to, u)
    ensures outcome == NotFound <==> u != to && !(u in old(m.groups) && to in old(m.groups))
    ensures outcome == Done || outcome == NotFound || outcome == CycleDetected
    ensures outcome != Done ==> m.groups == old(m.groups) && m.mutationSeq == old(m.mutationSeq)
    ensures outcome == Done ==>
      exists next ::
        && IsNextOrder(old(m.groups), to, next)
        && m.groups == old(m.groups)[u := old(m.groups)[u].(parent := Some(to), sortOrder := next, modifiedAt := now, locationChangedAt := Some(now))]
    ensures GroupTree(m.groups, root)
  {
    if u == to {
      WithinSelf(ParentsOf(m.groups), u);
      return CycleDetected;
    }
    if u !in m.groups || to !in m.groups {
      return NotFound;
    }
    var inside := IsInside(m.groups, to, u, root);
    if inside {
      return CycleDetected;
    }
    var next := NextSortOrder(m.groups, to);
    var row := m.groups[u].(parent := Some(to), sortOrder := next, modifiedAt := now, locationChangedAt := Some(now));
    PlacingKeepsTree(m.groups, u, row, to, root);
    m.groups := m.groups[u := row];
    m.mutationSeq := m.mutationSeq + 1;
    outcome := Done;
  }

  /** The root can never be moved: every destination is inside it. */
  lemma RootStays(groups: map<Uuid, GroupRow>, root: Uuid, to: Uuid)
    requires GroupTree(groups, root) && to in groups
    ensures Within(ParentsOf(groups), to, root)
  {
    GroupsClosedParents(groups, root);
    WithinSelf(ParentsOf(groups), root);
    assert to == root || ReachesRoot(ParentsOf(groups), root, to);
  }

  // ----- recycling

  /** Recycling a group checks only that it is not the bin itself; the result is
      one finite tree if and only if the bin is not inside the recycled group. */
  method RecycleGroup(m: Mirror, u: Uuid, now: int, ghost root: Uuid) returns (outcome: Outcome, bin: Option<Uuid>)
    requires GroupTree(m.groups, root)
    modifies m`groups, m`mutationSeq
    ensures bin.Some? ==> IsBin(old(m.groups), bin.value)
    ensures bin.None? <==> u !in old(m.groups) || forall b :: !IsBin(old(m.groups), b)
    ensures outcome == NotFound <==> bin.None?
    ensures outcome == CycleDetected <==> bin == Some(u)
    ensures outcome == Done <==> bin.Some? && bin != Some(u)
    ensures outcome != Done ==> m.groups == old(m.groups) && m.mutationSeq == old(m.mutationSeq)
    ensures outcome == Done ==>
      && m.groups == old(m.groups)[u := old(m.groups)[u].(parent := bin, modifiedAt := now)]
      && (GroupTree(m.groups, root) <==> !Within(ParentsOf(old(m.groups)), bin.value, u))
  {
    bin := None;
    if u !in m.groups {
      return NotFound, None;
    }
    bin := RecycleBinUuid(m.groups);
    if bin.None? {
      return NotFound, None;
    }
    if bin == Some(u) {
      return CycleDetected, bin;
    }
    var row := m.groups[u].(parent := bin, modifiedAt := now);
    PlacingKeepsTree(m.groups, u, row, bin.value, root);
    m.groups := m.groups[u := row];
    m.mutationSeq := m.mutationSeq + 1;
    outcome := Done;
  }

  // ----- sibling order

  /** The order children are listed in: sort order, then name, then id. */
  function CompareSiblings(groups: map<Uuid, GroupRow>, a: Uuid, b: Uuid): Ordering
    requires a in groups && b in groups
  {
    Then(CompareInts(groups[a].sortOrder, groups[b].sortOrder),
      Then(CompareStrings(groups[a].name, groups[b].name), CompareInts(a, b)))
  }

  predicate Precedes(groups: map<Uuid, GroupRow>, a: Uuid, b: Uuid) {
    a in groups && b in groups && CompareSiblings(groups, a, b) == Less
  }

  /** The lower sort order comes first, then the name that is below, then the smaller
      id. */
  ghost predicate ListedFirst(groups: map<Uuid, GroupRow>, a: Uuid, b: Uuid) {
    && a in groups && b in groups
    && (|| groups[a].sortOrder < groups[b].sortOrder
        || (groups[a].sortOrder == groups[b].sortOrder
            && (TextBelow(groups[a].name, groups[b].name) || (groups[a].name == groups[b].name && a < b))))
  }

  lemma PrecedesMeans(groups: map<Uuid, GroupRow>, a: Uuid, b: Uuid)
    ensures Precedes(groups, a, b) <==> ListedFirst(groups, a, b)
  {
    if a in groups && b in groups {
      PrecedesBetween(groups, a, b);
    }
  }

  lemma PrecedesBetween(groups: map<Uuid, GroupRow>, a: Uuid, b: Uuid)
    requires a in groups && b in groups
    ensures Precedes(groups, a, b) <==> ListedFirst(groups, a, b)
  {
    CompareStringsMeans(groups[a].name, groups[b].name);
    CompareStringsTotal(groups[a].name, groups[b].name);
  }

  lemma PrecedesTotal(groups: map<Uuid, GroupRow>, a: Uuid, b: Uuid)
    requires a in groups && b in groups && a != b
    ensures Precedes(groups, a, b) <==> !Precedes(groups, b, a)
  {
    CompareStringsTotal(groups[a].name, groups[b].name);
  }

  lemma PrecedesTransitive(groups: map<Uuid, GroupRow>, a: Uuid, b: Uuid, c: Uuid)
    requires Precedes(groups, a, b) && Precedes(groups, b, c)
    ensures Precedes(groups, a, c)
  {
    var x, y, z := groups[a].name, groups[b].name, groups[c].name;
    CompareStringsTotal(x, y);
    CompareStringsTotal(y, z);
    CompareStringsTotal(x, z);
    if CompareStrings(x, y) != Greater && CompareStrings(y, z) != Greater {
      CompareStringsTransitive(x, y, z);
      if x == z {
        CompareStringsTotal(y, x);
      }
    }
  }

  /** `s` lists the children of `parent` in their order, each once. */
  ghost predicate SiblingOrder(groups: map<Uuid, GroupRow>, parent: Uuid, s: seq<Uuid>) {
    && (forall i, j :: 0 <= i < j < |s| ==> Precedes(groups, s[i], s[j]))
    && (forall u :: u in s <==> u in ChildrenOf(groups, parent))
  }

  ghost predicate InOrder(groups: map<Uuid, GroupRow>, s: seq<Uuid>) {
    forall i, j :: 0 <= i < j < |s| ==> ListedFirst(groups, s[i], s[j])
  }

  lemma SiblingsInOrder(groups: map<Uuid, GroupRow>, parent: Uuid, s: seq<Uuid>)
    requires SiblingOrder(groups, parent, s)
    ensures InOrder(groups, s)
  {
    forall a, b ensures Precedes(groups, a, b) <==> ListedFirst(groups, a, b) {
      PrecedesMeans(groups, a, b);
    }
  }

  ghost predicate IsFirst(groups: map<Uuid, GroupRow>, some: set<Uuid>, u: Uuid) {
    u in some && forall v :: v in some && v != u ==> Precedes(groups, u, v)
  }

  method FirstSibling(groups: map<Uuid, GroupRow>, some: set<Uuid>) returns (u: Uuid)
    requires some != {} && some <= groups.Keys
    ensures IsFirst(groups, some, u)
  {
    u :| u in some;
    var rest := some - {u};
    while rest != {}
      invariant rest <= some && u in some && u !in rest
      invariant forall v :: v in some - rest && v != u ==> Precedes(groups, u, v)
    {
      var v :| v in rest;
      if Precedes(groups, v, u) {
        forall w | w in some - rest && w != u ensures Precedes(groups, v, w) {
          PrecedesTransitive(groups, v, u, w);
        }
        u := v;
      } else {
        PrecedesTotal(groups, u, v);
      }
      rest := rest - {v};
    }
  }

  /** Select the children of `parent`, ordered. */
  method OrderSiblings(groups: map<Uuid, GroupRow>, parent: Uuid) returns (s: seq<Uuid>)
    ensures SiblingOrder(groups, parent, s)
  {
    s := [];
    var all := set c | c in groups && groups[c].parent == Some(parent);
    var rest := all;
    while rest != {}
      invariant rest <= all
      invariant forall u :: u in s <==> u in all - rest
      invariant forall i, j :: 0 <= i < j < |s| ==> Precedes(groups, s[i], s[j])
      invariant forall u, v :: u in s && v in rest ==> Precedes(groups, u, v)
    {
      var u := FirstSibling(groups, rest);
      assert forall i :: 0 <= i < |s| ==> s[i] in s;
      s := s + [u];
      rest := rest - {u};
    }
  }

  lemma NotBefore(groups: map<Uuid, GroupRow>, a: Uuid, b: Uuid)
    requires Precedes(groups, a, b)
    ensures !Precedes(groups, b, a) && a != b
  {
    CompareStringsTotal(groups[a].name, groups[b].name);
    CompareStringsTotal(groups[a].name, groups[a].name);
  }

  // ----- reordering

  /** The element at `from` taken out and put in at `to`, or at the end. */
  function Spliced<T>(s: seq<T>, from: nat, to: nat): seq<T>
    requires from < |s|
  {
    var rest := s[..from] + s[from + 1..];
    var at := if to < |rest| then to else |rest|;
    rest[..at] + [s[from]] + rest[at..]
  }

  /** It lands at its new position, the last one at most; all others keep their
      order, and nothing is lost. */
  lemma SplicedMeans<T>(s: seq<T>, from: nat, to: nat)
    requires from < |s|
    ensures var at := if to < |s| then to else |s| - 1;
            var r := Spliced(s, from, to);
            && |r| == |s| && r[at] == s[from]
            && r[..at] + r[at + 1..] == s[..from] + s[from + 1..]
            && multiset(r) == multiset(s)
  {
    var rest := s[..from] + s[from + 1..];
    var at := if to < |s| then to else |s| - 1;
    var r := Spliced(s, from, to);
    assert r[..at] == rest[..at] && r[at + 1..] == rest[at..];
    assert rest[..at] + rest[at..] == rest;
    assert s == s[..from] + [s[from]] + s[from + 1..];
    assert multiset(r) == multiset(rest[..at] + rest[at..]) + multiset{s[from]};
  }

  /** Sort orders rewritten to positions. */
  ghost predicate Renumbered(before: map<Uuid, GroupRow>, after: map<Uuid, GroupRow>, s: seq<Uuid>, n: nat)
    requires n <= |s|
  {
    && after.Keys == before.Keys
    && (forall i :: 0 <= i < n ==> s[i] in before && after[s[i]] == before[s[i]].(sortOrder := i))
    && (forall u :: u in before && u !in s[..n] ==> after[u] == before[u])
  }

  lemma RenumberOne(before: map<Uuid, GroupRow>, after: map<Uuid, GroupRow>, s: seq<Uuid>, n: nat)
    requires n < |s| && Renumbered(before, after, s, n) && s[n] in before
    requires forall i, j :: 0 <= i < j < |s| ==> s[i] != s[j]
    ensures s[n] in after && Renumbered(before, after[s[n] := after[s[n]].(sortOrder := n)], s, n + 1)
  {
    assert s[..n + 1] == s[..n] + [s[n]];
    assert s[n] !in s[..n];
  }

  method WriteOrder(m: Mirror, s: seq<Uuid>)
    requires forall i :: 0 <= i < |s| ==> s[i] in m.groups
    requires forall i, j :: 0 <= i < j < |s| ==> s[i] != s[j]
    modifies m`groups, m`mutationSeq
    ensures Renumbered(old(m.groups), m.groups, s, |s|)
    ensures m.mutationSeq == old(m.mutationSeq) + |s|
  {
    ghost var before := m.groups;
    for i := 0 to |s|
      invariant Renumbered(before, m.groups, s, i)
      invariant m.mutationSeq == old(m.mutationSeq) + i
    {
      RenumberOne(before, m.groups, s, i);
      m.groups := m.groups[s[i] := m.groups[s[i]].(sortOrder := i)];
      m.mutationSeq := m.mutationSeq + 1;
    }
  }

  /** Only sort orders, and the moved row's modification time, may differ. */
  ghost predicate SameButOrder(before: map<Uuid, GroupRow>, after: map<Uuid, GroupRow>, s: seq<Uuid>, u: Uuid, now: int) {
    && after.Keys == before.Keys
    && (forall v :: v in before && v !in s ==> after[v] == before[v])
    && (forall i :: 0 <= i < |s| ==>
          && s[i] in before
          && after[s[i]] == before[s[i]].(sortOrder := i, modifiedAt := if s[i] == u then now else before[s[i]].modifiedAt))
  }

  /** Reordering puts the group at its new place among its siblings, leaves the
      others' order alone, and touches nothing but sort orders. */
  method ReorderGroup(m: Mirror, u: Uuid, position: nat, now: int, ghost root: Uuid)
      returns (outcome: Outcome, siblings: seq<Uuid>, ghost before: seq<Uuid>, ghost from: nat)
    requires GroupTree(m.groups, root)
    modifies m`groups, m`mutationSeq
    ensures outcome == Done <==> u in old(m.groups) && u != root
    ensures outcome == Done || outcome == NotFound
    ensures outcome == NotFound ==> m.groups == old(m.groups) && m.mutationSeq == old(m.mutationSeq)
    ensures outcome == Done ==>
      var parent := old(m.groups)[u].parent.value;
      && SiblingOrder(old(m.groups), parent, before)
      && from < |before| && before[from] == u && siblings == Spliced(before, from, position)
      && SiblingOrder(m.groups, parent, siblings)
      && InOrder(old(m.groups), before) && InOrder(m.groups, siblings)
      && SameButOrder(old(m.groups), m.groups, siblings, u, now)
    ensures GroupTree(m.groups, root)
  {
    siblings, before, from := [], [], 0;
    if u !in m.groups || m.groups[u].parent.None? {
      return NotFound, siblings, before, from;
    }
    ghost var was := m.groups;
    var parent := m.groups[u].parent.value;
    var listed := OrderSiblings(m.groups, parent);
    var i := IndexOf(listed, u);
    siblings := Spliced(listed, i, position);
    SplicedSiblings(m.groups, parent, listed, i, position);
    WriteOrder(m, siblings);
    m.groups := m.groups[u := m.groups[u].(modifiedAt := now)];
    m.mutationSeq := m.mutationSeq + 1;
    before, from, outcome := listed, i, Done;
    OrderWritten(was, m.groups, parent, siblings, u, now);
    SiblingsInOrder(was, parent, listed);
    SiblingsInOrder(m.groups, parent, siblings);
    OrderKeepsTree(was, m.groups, siblings, u, now, root);
  }

  method IndexOf(s: seq<Uuid>, u: Uuid) returns (i: nat)
    requires u in s
    ensures i < |s| && s[i] == u
  {
    i := 0;
    while s[i] != u
      invariant i < |s| && forall k :: 0 <= k < i ==> s[k] != u
      decreases |s| - i
    {
      i := i + 1;
    }
  }

  lemma SplicedSiblings(groups: map<Uuid, GroupRow>, parent: Uuid, s: seq<Uuid>, from: nat, to: nat)
    requires SiblingOrder(groups, parent, s) && from < |s|
    ensures var r := Spliced(s, from, to);
            && (forall i :: 0 <= i < |r| ==> r[i] in groups)
            && (forall i, j :: 0 <= i < j < |r| ==> r[i] != r[j])
            && (forall u :: u in r <==> u in ChildrenOf(groups, parent))
  {
    var r := Spliced(s, from, to);
    SplicedMeans(s, from, to);
    forall u ensures u in r <==> u in s {
      assert multiset(r)[u] == multiset(s)[u];
    }
    forall i | 0 <= i < |r| ensures r[i] in groups {
      assert r[i] in s;
    }
    forall i, j | 0 <= i < j < |s| ensures s[i] != s[j] {
      NotBefore(groups, s[i], s[j]);
    }
    DistinctCounts(s);
    forall i, j | 0 <= i < j < |r| ensures r[i] != r[j] {
      if r[i] == r[j] {
        TwiceCounts(r, i, j);
      }
    }
  }

  lemma OrderWritten(before: map<Uuid, GroupRow>, after: map<Uuid, GroupRow>, parent: Uuid, s: seq<Uuid>, u: Uuid, now: int)
    requires SameButOrder(before, after, s, u, now)
    requires forall v :: v in s <==> v in ChildrenOf(before, parent)
    ensures SiblingOrder(after, parent, s)
  {
    forall v ensures v in s <==> v in ChildrenOf(after, parent) {
      if v in s {
        var i :| 0 <= i < |s| && s[i] == v;
      }
    }
  }

  lemma OrderKeepsTree(before: map<Uuid, GroupRow>, after: map<Uuid, GroupRow>, s: seq<Uuid>, u: Uuid, now: int, root: Uuid)
    requires SameButOrder(before, after, s, u, now) && GroupTree(before, root)
    ensures GroupTree(after, root) && ParentsOf(after) == ParentsOf(before)
  {
    forall v | v in before ensures after[v].parent == before[v].parent {
      if v in s {
        var i :| 0 <= i < |s| && s[i] == v;
      }
    }
    assert ParentsOf(after) == ParentsOf(before);
  }
}
