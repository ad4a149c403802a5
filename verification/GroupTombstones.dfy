/** Deciding the fate of deleted groups from the merged tree. */
module GroupTombstones {
  import opened Order
  import opened GroupGraph
  import opened Store

  /** Depth walks give up here. */
  const MAX_DEPTH: nat := 100_000

  /** Groups that directly hold an entry. */
  function Holding(entries: map<Uuid, EntryRow>): set<Uuid> {
    set e | e in entries :: entries[e].group
  }

  /** The whole subtree of `u` was deleted and nothing in it holds an entry. */
  ghost predicate Gone(p: Parents, all: set<Uuid>, holding: set<Uuid>, tombstoned: set<Uuid>, u: Uuid) {
    forall d :: d in all && Within(p, d, u) ==> d in tombstoned && d !in holding
  }

  ghost function GoneGroups(groups: map<Uuid, GroupRow>, entries: map<Uuid, EntryRow>,
                            tombstones: map<Uuid, Option<int>>): set<Uuid> {
    set u | u in groups && Gone(ParentsOf(groups), groups.Keys, Holding(entries), tombstones.Keys, u)
  }

  ghost function SurvivingGroups(groups: map<Uuid, GroupRow>, gone: set<Uuid>): map<Uuid, GroupRow> {
    map u | u in groups && u !in gone :: groups[u]
  }

  /** A surviving group loses its tombstone; all others keep theirs. */
  ghost function RemainingTombstones(groups: map<Uuid, GroupRow>, tombstones: map<Uuid, Option<int>>,
                                     gone: set<Uuid>): map<Uuid, Option<int>> {
    map u | u in tombstones && (u !in groups || u in gone) :: tombstones[u]
  }

  // ----- the recursive test

  /** Groups by parent, as built from the group table. */
  ghost predicate IsChildIndex(children: map<Uuid, seq<Uuid>>, p: Parents) {
    && (forall c {:trigger p[c]} :: c in p ==> p[c] in children && c in children[p[c]])
    && (forall u, c {:trigger c in children[u]} :: u in children && c in children[u] ==> c in p && p[c] == u)
  }

  /** Not deleted, or holding an entry, or alive somewhere below. */
  function GroupAlive(u: Uuid, tombstoned: set<Uuid>, holding: set<Uuid>, children: map<Uuid, seq<Uuid>>,
                      ghost p: Parents, ghost root: Uuid): bool
    requires Tree(p, root) && IsChildIndex(children, p) && (u in p || u == root)
    decreases |p| - (DepthBounded(p, root, u); Depth(p, root, u))
  {
    if u !in tombstoned || u in holding then true
    else if u !in children then false
    else
      ChildrenAreDeeper(p, root, children, u);
      exists c :: c in children[u] && GroupAlive(c, tombstoned, holding, children, p, root)
  }

  ghost predicate Deeper(p: Parents, root: Uuid, u: Uuid, c: Uuid)
    requires Tree(p, root) && (u in p || u == root)
  {
    c in p && p[c] == u && Depth(p, root, u) < Depth(p, root, c) <= |p|
  }

  lemma ChildrenAreDeeper(p: Parents, root: Uuid, children: map<Uuid, seq<Uuid>>, u: Uuid)
    requires Tree(p, root) && IsChildIndex(children, p) && u in children && (u in p || u == root)
    ensures forall c :: c in children[u] ==> Deeper(p, root, u, c)
  {
    forall c | c in children[u] ensures Deeper(p, root, u, c) {
      ChildIsDeeper(p, root, children, u, c);
    }
  }

  lemma ChildIsDeeper(p: Parents, root: Uuid, children: map<Uuid, seq<Uuid>>, u: Uuid, c: Uuid)
    requires Tree(p, root) && IsChildIndex(children, p) && u in children && (u in p || u == root)
    requires c in children[u]
    ensures Deeper(p, root, u, c)
  {
    DepthOfChild(p, root, c);
    DepthBounded(p, root, c);
  }

  /** The recursion down the children answers the question about the whole
      subtree. */
  lemma {:induction false} GroupAliveMeans(u: Uuid, all: set<Uuid>, tombstoned: set<Uuid>, holding: set<Uuid>,
                                           children: map<Uuid, seq<Uuid>>, p: Parents, root: Uuid)
    requires Tree(p, root) && IsChildIndex(children, p) && all == p.Keys + {root} && u in all
    ensures GroupAlive(u, tombstoned, holding, children, p, root) <==> !Gone(p, all, holding, tombstoned, u)
    decreases |p| - (DepthBounded(p, root, u); Depth(p, root, u))
  {
    WithinSelf(p, u);
    if u in tombstoned && u !in holding {
      if u in children {
        forall c | c in children[u]
          ensures c in p && p[c] == u
          ensures GroupAlive(c, tombstoned, holding, children, p, root) <==> !Gone(p, all, holding, tombstoned, c)
        {
          ChildrenAreDeeper(p, root, children, u);
          GroupAliveMeans(c, all, tombstoned, holding, children, p, root);
        }
      }
      if GroupAlive(u, tombstoned, holding, children, p, root) {
        var c :| c in children[u] && GroupAlive(c, tombstoned, holding, children, p, root);
        var d :| d in all && Within(p, d, c) && !(d in tombstoned && d !in holding);
        WithinChild(p, c, u);
        WithinTransitive(p, d, c, u);
      }
      if !Gone(p, all, holding, tombstoned, u) {
        var d :| d in all && Within(p, d, u) && !(d in tombstoned && d !in holding);
        var c := WithinCases(p, d, u);
        assert GroupAlive(c, tombstoned, holding, children, p, root);
      }
    }
  }

  // ----- what deletion leaves behind

  lemma GoneIsDownward(p: Parents, all: set<Uuid>, holding: set<Uuid>, tombstoned: set<Uuid>, u: Uuid, c: Uuid)
    requires Gone(p, all, holding, tombstoned, u) && c in p && p[c] == u
    ensures Gone(p, all, holding, tombstoned, c)
  {
    WithinSelf(p, u);
    WithinChild(p, c, u);
    forall d | d in all && Within(p, d, c) ensures d in tombstoned && d !in holding {
      WithinTransitive(p, d, c, u);
    }
  }

  /** Every parent column and every entry's group column resolves. */
  ghost predicate Resolves(groups: map<Uuid, GroupRow>, entries: map<Uuid, EntryRow>) {
    && (forall u {:trigger groups[u]} :: u in groups && groups[u].parent.Some? ==> groups[u].parent.value in groups)
    && (forall e :: e in entries ==> entries[e].group in groups)
  }

  /** The survivors are still one finite tree; if even the root is gone, nothing
      survives. */
  lemma SurvivorsFormTree(groups: map<Uuid, GroupRow>, entries: map<Uuid, EntryRow>,
                          tombstones: map<Uuid, Option<int>>, root: Uuid)
    requires GroupTree(groups, root) && Resolves(groups, entries)
    ensures var gone := GoneGroups(groups, entries, tombstones);
            var after := SurvivingGroups(groups, gone);
            Resolves(after, entries) && if root in gone then after == map[] else GroupTree(after, root)
  {
    var gone := GoneGroups(groups, entries, tombstones);
    var after := SurvivingGroups(groups, gone);
    var p, q := ParentsOf(groups), ParentsOf(after);
    GroupsClosedParents(groups, root);
    forall u | u in after && after[u].parent.Some? ensures after[u].parent.value in after {
      if p[u] in gone {
        GoneIsDownward(p, groups.Keys, Holding(entries), tombstones.Keys, p[u], u);
      }
    }
    forall e | e in entries ensures entries[e].group in after {
      assert entries[e].group in Holding(entries);
      WithinSelf(p, entries[e].group);
    }
    if root in gone {
      forall u | u in groups ensures u in gone {
        RootGone(groups, entries, tombstones, root, u);
      }
    } else {
      forall u | u in q ensures ReachesRoot(q, root, u) {
        SurvivorReaches(p, q, root, u, Depth(p, root, u));
      }
    }
  }

  lemma RootGone(groups: map<Uuid, GroupRow>, entries: map<Uuid, EntryRow>,
                 tombstones: map<Uuid, Option<int>>, root: Uuid, u: Uuid)
    requires GroupTree(groups, root) && u in groups && root in GoneGroups(groups, entries, tombstones)
    ensures u in GoneGroups(groups, entries, tombstones)
  {
    var p := ParentsOf(groups);
    forall d | d in groups && Within(p, d, u) ensures d in tombstones && d !in Holding(entries) {
      if d == root {
        WithinSelf(p, root);
      }
      GroupsClosedParents(groups, root);
      assert d == root || ReachesRoot(p, root, d);
      assert Within(p, d, root);
    }
  }

  lemma {:induction false} SurvivorReaches(p: Parents, q: Parents, root: Uuid, u: Uuid, n: nat)
    requires Ancestor(p, u, n) == Some(root)
    requires forall c :: c in q ==> c in p && p[c] == q[c] && (q[c] in q || q[c] == root)
    requires root !in p && (u in q || u == root)
    ensures ReachesRoot(q, root, u)
    decreases n
  {
    if u == root {
      assert Ancestor(q, u, 0) == Some(root);
    } else {
      SurvivorReaches(p, q, root, p[u], n - 1);
      var k: nat :| Ancestor(q, p[u], k) == Some(root);
      assert Ancestor(q, u, k + 1) == Some(root);
    }
  }

  // ----- the pass

  /** Children by parent, in whatever order the rows come. */
  method IndexChildren(p: Parents) returns (children: map<Uuid, seq<Uuid>>)
    ensures IsChildIndex(children, p)
  {
    children := map[];
    var rows := p.Keys;
    while rows != {}
      invariant rows <= p.Keys
      invariant forall c :: c in p.Keys - rows ==> p[c] in children && c in children[p[c]]
      invariant forall u, c :: u in children && c in children[u] ==> c in p && p[c] == u
    {
      var c :| c in rows;
      var siblings := if p[c] in children then children[p[c]] else [];
      children := children[p[c] := siblings + [c]];
      rows := rows - {c};
    }
  }

  method GroupDepth(u: Uuid, p: Parents, ghost root: Uuid) returns (depth: nat)
    requires Tree(p, root) && (u in p || u == root)
    ensures |p| <= MAX_DEPTH ==> depth == Depth(p, root, u)
  {
    depth := 0;
    var cur := u;
    while cur in p
      invariant cur in p || cur == root
      invariant depth <= MAX_DEPTH && Depth(p, root, u) == depth + Depth(p, root, cur)
      decreases MAX_DEPTH - depth
    {
      DepthOfChild(p, root, cur);
      depth := depth + 1;
      cur := p[cur];
      if depth > MAX_DEPTH {
        DepthBounded(p, root, u);
        return;
      }
    }
    DepthIsUnique(p, root, root, 0, Depth(p, root, root));
  }

  ghost predicate IsDeepest(some: set<Uuid>, p: Parents, root: Uuid, u: Uuid)
    requires Tree(p, root) && some <= p.Keys + {root}
  {
    u in some && forall d :: d in some ==> Depth(p, root, d) <= Depth(p, root, u)
  }

  /** The deepest of `some`: what a sort by descending depth puts first. */
  method Deepest(some: set<Uuid>, p: Parents, ghost root: Uuid) returns (u: Uuid)
    requires Tree(p, root) && |p| <= MAX_DEPTH
    requires some != {} && some <= p.Keys + {root}
    ensures IsDeepest(some, p, root, u)
  {
    u :| u in some;
    var best := GroupDepth(u, p, root);
    var rest := some - {u};
    while rest != {}
      invariant rest <= some && u in some && best == Depth(p, root, u)
      invariant forall d :: d in some - rest ==> Depth(p, root, d) <= best
    {
      var d :| d in rest;
      var depth := GroupDepth(d, p, root);
      if depth > best {
        u, best := d, depth;
      }
      rest := rest - {d};
    }
  }

  /** The tombstones once the tombstoned groups outside `rest` have been judged. */
  ghost function Judged(tombstones: map<Uuid, Option<int>>, tombstoned: set<Uuid>, rest: set<Uuid>,
                        gone: set<Uuid>): map<Uuid, Option<int>> {
    map u | u in tombstones && (u !in tombstoned || u in rest || u in gone) :: tombstones[u]
  }

  lemma JudgeOne(tombstones: map<Uuid, Option<int>>, tombstoned: set<Uuid>, rest: set<Uuid>, gone: set<Uuid>, u: Uuid)
    requires u in rest && rest <= tombstoned
    ensures Judged(tombstones, tombstoned, rest - {u}, gone) ==
            if u in gone then Judged(tombstones, tombstoned, rest, gone)
            else Judged(tombstones, tombstoned, rest, gone) - {u}
    ensures gone * (tombstoned - (rest - {u})) ==
            if u in gone then gone * (tombstoned - rest) + {u} else gone * (tombstoned - rest)
  {
  }

  /** Tombstones of entries play no part, so the test over tombstoned groups
      decides exactly the groups that go. */
  lemma AliveDecides(groups: map<Uuid, GroupRow>, entries: map<Uuid, EntryRow>, tombstones: map<Uuid, Option<int>>,
                     root: Uuid, children: map<Uuid, seq<Uuid>>, u: Uuid)
    requires GroupTree(groups, root) && IsChildIndex(children, ParentsOf(groups)) && u in groups
    ensures u in ParentsOf(groups) || u == root
    ensures GroupAlive(u, tombstones.Keys * groups.Keys, Holding(entries), children, ParentsOf(groups), root) <==>
              u !in GoneGroups(groups, entries, tombstones)
  {
    var p := ParentsOf(groups);
    var tombstoned := tombstones.Keys * groups.Keys;
    GroupsClosedParents(groups, root);
    GroupAliveMeans(u, groups.Keys, tombstoned, Holding(entries), children, p, root);
    assert Gone(p, groups.Keys, Holding(entries), tombstoned, u) <==>
             Gone(p, groups.Keys, Holding(entries), tombstones.Keys, u);
  }

  /** Scrub the tombstones of deleted groups that live on; list the others. */
  method Partition(m: Mirror, tombstoned: set<Uuid>, ghost root: Uuid) returns (dead: set<Uuid>)
    requires GroupTree(m.groups, root)
    requires tombstoned == m.tombstones.Keys * m.groups.Keys
    modifies m`tombstones, m`mutationSeq
    ensures dead == GoneGroups(m.groups, m.entries, old(m.tombstones))
    ensures m.tombstones == RemainingTombstones(m.groups, old(m.tombstones), dead)
    ensures m.mutationSeq >= old(m.mutationSeq)
    ensures m.mutationSeq > old(m.mutationSeq) || dead == tombstoned
  {
    ghost var before := m.tombstones;
    ghost var gone := GoneGroups(m.groups, m.entries, before);
    GoneAreTombstoned(m.groups, m.entries, before);
    var children := IndexChildren(ParentsOf(m.groups));
    var rest := tombstoned;
    dead := {};
    while rest != {}
      invariant rest <= tombstoned
      invariant dead == gone * (tombstoned - rest)
      invariant m.tombstones == Judged(before, tombstoned, rest, gone)
      invariant m.mutationSeq >= old(m.mutationSeq)
      invariant m.mutationSeq > old(m.mutationSeq) || dead == tombstoned - rest
    {
      var u :| u in rest;
      AliveDecides(m.groups, m.entries, before, root, children, u);
      JudgeOne(before, tombstoned, rest, gone, u);
      if GroupAlive(u, tombstoned, Holding(m.entries), children, ParentsOf(m.groups), root) {
        m.tombstones := m.tombstones - {u};
        m.mutationSeq := m.mutationSeq + 1;
      } else {
        dead := dead + {u};
      }
      rest := rest - {u};
    }
    assert Judged(before, tombstoned, {}, gone) == RemainingTombstones(m.groups, before, gone);
  }

  lemma GoneAreTombstoned(groups: map<Uuid, GroupRow>, entries: map<Uuid, EntryRow>, tombstones: map<Uuid, Option<int>>)
    ensures GoneGroups(groups, entries, tombstones) <= tombstones.Keys * groups.Keys
  {
    forall u | u in GoneGroups(groups, entries, tombstones) ensures u in tombstones {
      WithinSelf(ParentsOf(groups), u);
    }
  }

  /** `dead` takes whole subtrees and leaves every entry its group. */
  ghost predicate Deletable(groups: map<Uuid, GroupRow>, entries: map<Uuid, EntryRow>, dead: set<Uuid>) {
    && dead <= groups.Keys
    && (forall c {:trigger groups[c]} :: c in groups && groups[c].parent.Some? && groups[c].parent.value in dead ==> c in dead)
    && (forall e :: e in entries ==> entries[e].group !in dead)
  }

  lemma GoneIsDeletable(groups: map<Uuid, GroupRow>, entries: map<Uuid, EntryRow>, tombstones: map<Uuid, Option<int>>)
    ensures Deletable(groups, entries, GoneGroups(groups, entries, tombstones))
  {
    var p := ParentsOf(groups);
    var gone := GoneGroups(groups, entries, tombstones);
    forall c | c in groups && groups[c].parent.Some? && groups[c].parent.value in gone ensures c in gone {
      GoneIsDownward(p, groups.Keys, Holding(entries), tombstones.Keys, p[c], c);
    }
    forall e | e in entries ensures entries[e].group !in gone {
      assert entries[e].group in Holding(entries);
      WithinSelf(p, entries[e].group);
    }
  }

  /** Delete the dead groups deepest first. No parent column and no entry's group
      column dangles after any single deletion. */
  method DeleteDead(m: Mirror, dead: set<Uuid>, ghost root: Uuid)
    requires GroupTree(m.groups, root) && |m.groups| <= MAX_DEPTH
    requires Resolves(m.groups, m.entries) && Deletable(m.groups, m.entries, dead)
    modifies m`groups, m`mutationSeq
    ensures m.groups == SurvivingGroups(old(m.groups), dead)
    ensures Resolves(m.groups, m.entries)
    ensures m.mutationSeq == old(m.mutationSeq) + |dead|
  {
    ghost var before := m.groups;
    var p := ParentsOf(m.groups);
    GroupsClosedParents(before, root);
    ParentsFewer(before, root);
    var rest := dead;
    NoneDeleted(before, dead);
    while rest != {}
      invariant rest <= dead
      invariant Deleting(before, m.groups, m.entries, dead, rest)
      invariant m.mutationSeq + |rest| == old(m.mutationSeq) + |dead|
    {
      var u := Deepest(rest, p, root);
      DeleteOne(before, m.groups, m.entries, root, dead, rest, u);
      m.groups := m.groups - {u};
      m.mutationSeq := m.mutationSeq + 1;
      rest := rest - {u};
    }
    assert dead - {} == dead;
  }

  /** All of `dead` but `rest` are deleted, and every reference resolves. */
  ghost predicate Deleting(before: map<Uuid, GroupRow>, now: map<Uuid, GroupRow>, entries: map<Uuid, EntryRow>, dead: set<Uuid>, rest: set<Uuid>) {
    now == SurvivingGroups(before, dead - rest) && Resolves(now, entries)
  }

  lemma NoneDeleted(groups: map<Uuid, GroupRow>, dead: set<Uuid>)
    ensures SurvivingGroups(groups, dead - dead) == groups
  {
  }

  lemma DeleteOne(groups: map<Uuid, GroupRow>, now: map<Uuid, GroupRow>, entries: map<Uuid, EntryRow>, root: Uuid, dead: set<Uuid>, rest: set<Uuid>, u: Uuid)
    requires GroupTree(groups, root) && Deletable(groups, entries, dead)
    requires rest <= dead && ParentsOf(groups).Keys + {root} == groups.Keys && IsDeepest(rest, ParentsOf(groups), root, u)
    requires Deleting(groups, now, entries, dead, rest)
    ensures Deleting(groups, now - {u}, entries, dead, rest - {u})
  {
    assert dead - (rest - {u}) == (dead - rest) + {u};
    forall c | c in groups && groups[c].parent == Some(u) ensures c in dead && c !in rest {
      DepthOfChild(ParentsOf(groups), root, c);
    }
  }

  lemma ParentsFewer(groups: map<Uuid, GroupRow>, root: Uuid)
    requires GroupsClosed(groups, root)
    ensures |ParentsOf(groups)| < |groups|
  {
    GroupsClosedParents(groups, root);
    assert |ParentsOf(groups).Keys| == |groups.Keys - {root}| == |groups.Keys| - 1;
  }

  /** Tombstoned groups without live content go, children first; those with live
      content lose their tombstone instead. */
  method MaterializeGroupTombstones(m: Mirror, ghost root: Uuid)
    requires GroupTree(m.groups, root) && Resolves(m.groups, m.entries) && |m.groups| <= MAX_DEPTH
    modifies m`groups, m`tombstones, m`mutationSeq
    ensures m.groups == SurvivingGroups(old(m.groups), GoneGroups(old(m.groups), m.entries, old(m.tombstones)))
    ensures m.tombstones == RemainingTombstones(old(m.groups), old(m.tombstones),
                                                GoneGroups(old(m.groups), m.entries, old(m.tombstones)))
    ensures Resolves(m.groups, m.entries)
    ensures m.groups.Keys !! m.tombstones.Keys
    ensures m.mutationSeq >= old(m.mutationSeq)
    ensures m.mutationSeq == old(m.mutationSeq) <==> old(m.groups).Keys !! old(m.tombstones).Keys
  {
    var tombstoned := set u | u in m.tombstones && u in m.groups;
    assert tombstoned == m.tombstones.Keys * m.groups.Keys;
    if tombstoned == {} {
      assert forall u :: u in m.groups && u in m.tombstones ==> u in tombstoned;
      NothingTombstoned(m.groups, m.entries, m.tombstones);
      return;
    }
    var dead := Partition(m, tombstoned, root);
    GoneIsDeletable(m.groups, m.entries, old(m.tombstones));
    DeleteDead(m, dead, root);
    assert !(old(m.groups).Keys !! old(m.tombstones).Keys);
  }

  lemma NothingTombstoned(groups: map<Uuid, GroupRow>, entries: map<Uuid, EntryRow>, tombstones: map<Uuid, Option<int>>)
    requires groups.Keys !! tombstones.Keys
    ensures GoneGroups(groups, entries, tombstones) == {}
    ensures SurvivingGroups(groups, {}) == groups
    ensures RemainingTombstones(groups, tombstones, {}) == tombstones
  {
    GoneAreTombstoned(groups, entries, tombstones);
  }

  /** The verdict depends on nothing but the parent edges, the groups that hold
      entries and which ids have tombstones: replicas that agree on those decide alike. */
  lemma VerdictIsShared(ga: map<Uuid, GroupRow>, gb: map<Uuid, GroupRow>, ea: map<Uuid, EntryRow>, eb: map<Uuid, EntryRow>,
                        ta: map<Uuid, Option<int>>, tb: map<Uuid, Option<int>>)
    requires ga.Keys == gb.Keys && forall u :: u in ga ==> ga[u].parent == gb[u].parent
    requires ea.Keys == eb.Keys && forall e :: e in ea ==> ea[e].group == eb[e].group
    requires ta.Keys == tb.Keys
    ensures GoneGroups(ga, ea, ta) == GoneGroups(gb, eb, tb)
  {
    assert ParentsOf(ga) == ParentsOf(gb);
    assert Holding(ea) == Holding(eb) by {
      forall e | e in ea ensures ea[e].group in Holding(eb) && eb[e].group in Holding(ea) {
        assert eb[e].group in Holding(eb);
      }
    }
  }
}
