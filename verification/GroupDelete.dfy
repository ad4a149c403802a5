/** Hard deletion of a group with everything below it, and emptying the bin. */
module GroupDelete {
  import opened Order
  import opened GroupGraph
  import opened Store
  import opened BinWalk
  import opened GroupTombstones

  // ----- subtrees

  ghost function Subtree(groups: map<Uuid, GroupRow>, u: Uuid): set<Uuid> {
    set d | d in groups && Within(ParentsOf(groups), d, u)
  }

  ghost function ChildrenOf(groups: map<Uuid, GroupRow>, u: Uuid): set<Uuid> {
    set c | c in groups && groups[c].parent == Some(u)
  }

  /** Everything below one of `tops`. */
  ghost function Below(groups: map<Uuid, GroupRow>, tops: set<Uuid>): set<Uuid> {
    set d, c | d in groups && c in tops && Within(ParentsOf(groups), d, c) :: d
  }

  /** A group whose parent goes, goes too. */
  ghost predicate Downward(groups: map<Uuid, GroupRow>, gone: set<Uuid>) {
    forall c {:trigger groups[c]} :: c in groups && groups[c].parent.Some? && groups[c].parent.value in gone ==> c in gone
  }

  lemma BelowGrows(groups: map<Uuid, GroupRow>, tops: set<Uuid>, c: Uuid)
    ensures Below(groups, tops + {c}) == Below(groups, tops) + Subtree(groups, c)
  {
  }

  lemma BelowIsDownward(groups: map<Uuid, GroupRow>, tops: set<Uuid>)
    ensures Downward(groups, Below(groups, tops))
  {
    var p := ParentsOf(groups);
    forall d | d in groups && groups[d].parent.Some? && groups[d].parent.value in Below(groups, tops)
      ensures d in Below(groups, tops)
    {
      var c :| c in tops && Within(p, p[d], c);
      WithinChild(p, d, c);
    }
  }

  /** Walks that start among the survivors are not affected by a deletion. */
  lemma {:induction false} SurvivorWalk(groups: map<Uuid, GroupRow>, gone: set<Uuid>, d: Uuid, n: nat)
    requires Downward(groups, gone) && d !in gone
    ensures Ancestor(ParentsOf(groups - gone), d, n) == Ancestor(ParentsOf(groups), d, n)
    decreases n
  {
    if n > 0 && d in groups && groups[d].parent.Some? {
      SurvivorWalk(groups, gone, groups[d].parent.value, n - 1);
    }
  }

  lemma SurvivorWithin(groups: map<Uuid, GroupRow>, gone: set<Uuid>, d: Uuid, u: Uuid)
    requires Downward(groups, gone) && d !in gone
    ensures Within(ParentsOf(groups - gone), d, u) <==> Within(ParentsOf(groups), d, u)
  {
    if n: nat :| Ancestor(ParentsOf(groups), d, n) == Some(u) {
      SurvivorWalk(groups, gone, d, n);
    }
    if n: nat :| Ancestor(ParentsOf(groups - gone), d, n) == Some(u) {
      SurvivorWalk(groups, gone, d, n);
    }
  }

  lemma SubtreeAfter(groups: map<Uuid, GroupRow>, gone: set<Uuid>, u: Uuid)
    requires Downward(groups, gone)
    ensures Subtree(groups - gone, u) == Subtree(groups, u) - gone
  {
    forall d | d in groups - gone
      ensures Within(ParentsOf(groups - gone), d, u) <==> Within(ParentsOf(groups), d, u)
    {
      SurvivorWithin(groups, gone, d, u);
    }
  }

  lemma SurvivorsAcyclic(groups: map<Uuid, GroupRow>, gone: set<Uuid>)
    requires Acyclic(ParentsOf(groups)) && Downward(groups, gone)
    ensures Acyclic(ParentsOf(groups - gone))
  {
    var q := ParentsOf(groups - gone);
    forall u: Uuid ensures !OnCycle(q, u) {
      if OnCycle(q, u) {
        SurvivingCycle(groups, gone, u);
      }
    }
  }

  lemma SurvivingCycle(groups: map<Uuid, GroupRow>, gone: set<Uuid>, u: Uuid)
    requires Downward(groups, gone) && OnCycle(ParentsOf(groups - gone), u)
    ensures OnCycle(ParentsOf(groups), u)
  {
    var n: nat :| n > 0 && Ancestor(ParentsOf(groups - gone), u, n) == Some(u);
    SurvivorWalk(groups, gone, u, n);
  }

  /** No child sits below another child of the same group, or below itself. */
  lemma SiblingsApart(groups: map<Uuid, GroupRow>, u: Uuid, a: Uuid, b: Uuid)
    requires Acyclic(ParentsOf(groups)) && a in ChildrenOf(groups, u) && b in ChildrenOf(groups, u) && a != b
    ensures !Within(ParentsOf(groups), a, b)
  {
    if Within(ParentsOf(groups), a, b) {
      BelowSiblingIsCycle(groups, u, a, b);
    }
  }

  lemma BelowSiblingIsCycle(groups: map<Uuid, GroupRow>, u: Uuid, a: Uuid, b: Uuid)
    requires a in ChildrenOf(groups, u) && b in ChildrenOf(groups, u) && a != b && Within(ParentsOf(groups), a, b)
    ensures OnCycle(ParentsOf(groups), u)
  {
    var p := ParentsOf(groups);
    var n: nat :| Ancestor(p, a, n) == Some(b);
    assert Ancestor(p, u, n - 1) == Some(b);
    BelowChildIsCycle(groups, u, b);
  }

  lemma NotBelowChild(groups: map<Uuid, GroupRow>, u: Uuid, c: Uuid)
    requires Acyclic(ParentsOf(groups)) && c in ChildrenOf(groups, u)
    ensures !Within(ParentsOf(groups), u, c)
  {
    if Within(ParentsOf(groups), u, c) {
      BelowChildIsCycle(groups, u, c);
    }
  }

  lemma BelowChildIsCycle(groups: map<Uuid, GroupRow>, u: Uuid, c: Uuid)
    requires c in ChildrenOf(groups, u) && Within(ParentsOf(groups), u, c)
    ensures OnCycle(ParentsOf(groups), u)
  {
    var p := ParentsOf(groups);
    var n: nat :| Ancestor(p, u, n) == Some(c);
    AncestorSplit(p, u, n, 1);
    assert Ancestor(p, c, 1) == Some(u);
    assert Ancestor(p, u, n + 1) == Some(u);
  }

  /** Everything below a group is below one of its children. */
  lemma BelowChildren(groups: map<Uuid, GroupRow>, u: Uuid)
    requires Acyclic(ParentsOf(groups)) && u in groups
    ensures Below(groups, ChildrenOf(groups, u)) == Subtree(groups, u) - {u}
    ensures u in Subtree(groups, u)
  {
    var p := ParentsOf(groups);
    WithinSelf(p, u);
    forall d | d in Below(groups, ChildrenOf(groups, u)) ensures d in Subtree(groups, u) - {u} {
      var c :| c in ChildrenOf(groups, u) && Within(p, d, c);
      WithinChild(p, c, u);
      WithinTransitive(p, d, c, u);
      NotBelowChild(groups, u, c);
    }
    forall d | d in Subtree(groups, u) - {u} ensures d in Below(groups, ChildrenOf(groups, u)) {
      var c := WithinCases(p, d, u);
      assert c in ChildrenOf(groups, u);
    }
  }

  // ----- what a deletion leaves

  datatype Shelf = Shelf(groups: map<Uuid, GroupRow>, entries: map<Uuid, EntryRow>, tombstones: map<Uuid, Option<int>>)

  ghost function ShelfOf(m: Mirror): Shelf
    reads m
  {
    Shelf(m.groups, m.entries, m.tombstones)
  }

  ghost function EntriesIn(entries: map<Uuid, EntryRow>, groups: set<Uuid>): set<Uuid> {
    set e | e in entries && entries[e].group in groups
  }

  ghost function Buried(tombstones: map<Uuid, Option<int>>, ids: set<Uuid>, now: int): map<Uuid, Option<int>> {
    map u | u in tombstones.Keys + ids :: if u in ids then Some(now) else tombstones[u]
  }

  /** Exactly these groups and entries are gone, each with a tombstone. */
  ghost predicate Purged(before: Shelf, after: Shelf, groups: set<Uuid>, entries: set<Uuid>, now: int) {
    && after.groups == before.groups - groups
    && after.entries == before.entries - entries
    && after.tombstones == Buried(before.tombstones, groups + entries, now)
  }

  lemma PurgedTwice(a: Shelf, b: Shelf, c: Shelf, g1: set<Uuid>, e1: set<Uuid>, g2: set<Uuid>, e2: set<Uuid>, now: int)
    requires Purged(a, b, g1, e1, now) && Purged(b, c, g2, e2, now)
    ensures Purged(a, c, g1 + g2, e1 + e2, now)
  {
    assert c.groups == a.groups - (g1 + g2);
    assert c.entries == a.entries - (e1 + e2);
  }

  lemma EntriesSplit(entries: map<Uuid, EntryRow>, a: set<Uuid>, b: set<Uuid>)
    ensures EntriesIn(entries, a) + EntriesIn(entries - EntriesIn(entries, a), b - a) == EntriesIn(entries, a + b)
  {
  }

  // ----- the record of a deletion

  /** A deleted group and the group it was under. */
  datatype LoggedGroup = LoggedGroup(id: Uuid, parent: Option<Uuid>)

  /** A deleted entry and the group it was in. */
  datatype LoggedEntry = LoggedEntry(id: Uuid, group: Uuid)

  /** The log names exactly the groups in `gone`, each once and with its parent,
      and never a group before one below it. */
  ghost predicate LeavesFirst(log: seq<LoggedGroup>, groups: map<Uuid, GroupRow>, gone: set<Uuid>) {
    && (forall i :: 0 <= i < |log| ==> log[i].id in gone && log[i].id in groups && log[i].parent == groups[log[i].id].parent)
    && (forall u :: u in gone ==> exists i :: 0 <= i < |log| && log[i].id == u)
    && (forall i, j :: 0 <= i < j < |log| ==> !Within(ParentsOf(groups), log[j].id, log[i].id))
  }

  /** The log names exactly the entries in `gone`, each with its group. */
  ghost predicate Logged(log: seq<LoggedEntry>, entries: map<Uuid, EntryRow>, gone: set<Uuid>) {
    && (forall i :: 0 <= i < |log| ==> log[i].id in gone && log[i].id in entries && log[i].group == entries[log[i].id].group)
    && (forall e :: e in gone ==> exists i :: 0 <= i < |log| && log[i].id == e)
    && (forall i, j :: 0 <= i < j < |log| ==> log[i].id != log[j].id)
  }

  lemma LogsJoin(first: seq<LoggedGroup>, second: seq<LoggedGroup>, groups: map<Uuid, GroupRow>, a: set<Uuid>, b: set<Uuid>)
    requires LeavesFirst(first, groups, a) && LeavesFirst(second, groups - a, b)
    requires Downward(groups, a) && b !! a
    ensures LeavesFirst(first + second, groups, a + b)
  {
    var log, p := first + second, ParentsOf(groups);
    forall i, j | 0 <= i < j < |log| ensures !Within(p, log[j].id, log[i].id) {
      if |first| <= i {
        assert log[i] == second[i - |first|] && log[j] == second[j - |first|];
        SurvivorWithin(groups, a, log[j].id, log[i].id);
      } else if |first| <= j {
        assert log[j] == second[j - |first|];
        if Within(p, log[j].id, log[i].id) {
          DownwardBelow(groups, a, log[j].id, log[i].id);
        }
      }
    }
    forall u | u in a + b ensures exists i :: 0 <= i < |log| && log[i].id == u {
      if u in a {
        var i :| 0 <= i < |first| && first[i].id == u;
        assert log[i] == first[i];
      } else {
        var i :| 0 <= i < |second| && second[i].id == u;
        assert log[|first| + i] == second[i];
      }
    }
  }

  /** A downward set is closed under going down any number of steps. */
  lemma DownwardBelow(groups: map<Uuid, GroupRow>, gone: set<Uuid>, d: Uuid, u: Uuid)
    requires Downward(groups, gone) && u in gone && Within(ParentsOf(groups), d, u)
    ensures d in gone
  {
    var n: nat :| Ancestor(ParentsOf(groups), d, n) == Some(u);
    if d !in gone {
      SurvivorWalk(groups, gone, d, n);
      SurvivorStays(groups, gone, d, n);
    }
  }

  lemma {:induction false} SurvivorStays(groups: map<Uuid, GroupRow>, gone: set<Uuid>, d: Uuid, n: nat)
    requires Downward(groups, gone) && d !in gone && Ancestor(ParentsOf(groups), d, n).Some?
    ensures Ancestor(ParentsOf(groups), d, n).value !in gone
    decreases n
  {
    if n > 0 {
      SurvivorStays(groups, gone, groups[d].parent.value, n - 1);
    }
  }

  lemma EntryLogsJoin(first: seq<LoggedEntry>, second: seq<LoggedEntry>, entries: map<Uuid, EntryRow>, a: set<Uuid>, b: set<Uuid>)
    requires Logged(first, entries, a) && Logged(second, entries - a, b)
    ensures Logged(first + second, entries, a + b)
  {
    var log := first + second;
    forall e | e in a + b ensures exists i :: 0 <= i < |log| && log[i].id == e {
      if e in a {
        var i :| 0 <= i < |first| && first[i].id == e;
        assert log[i] == first[i];
      } else {
        var i :| 0 <= i < |second| && second[i].id == e;
        assert log[|first| + i] == second[i];
      }
    }
  }

  // ----- the cascade

  /** Delete the entries directly in one group, a tombstone each. */
  method DeleteDirectChildEntries(m: Mirror, u: Uuid, now: int) returns (log: seq<LoggedEntry>)
    modifies m`entries, m`tombstones, m`mutationSeq
    ensures Purged(old(ShelfOf(m)), ShelfOf(m), {}, EntriesIn(old(m.entries), {u}), now)
    ensures Logged(log, old(m.entries), EntriesIn(old(m.entries), {u}))
    ensures m.mutationSeq >= old(m.mutationSeq)
  {
    log := [];
    ghost var before := ShelfOf(m);
    var all := set e | e in m.entries && m.entries[e].group == u;
    var rest := all;
    assert all == EntriesIn(m.entries, {u});
    NothingBuried(before, all, now);
    while rest != {}
      invariant rest <= all && m.entries == before.entries && m.groups == before.groups
      invariant Burying(log, before, m.tombstones, all, rest, now)
      invariant m.mutationSeq >= old(m.mutationSeq)
    {
      var e :| e in rest;
      OneEntryMore(log, before, m.tombstones, all, rest, e, now);
      log := log + [LoggedEntry(e, u)];
      m.tombstones := m.tombstones[e := Some(now)];
      m.mutationSeq := m.mutationSeq + 1;
      rest := rest - {e};
    }
    m.entries := m.entries - all;
    m.mutationSeq := m.mutationSeq + |all|;
    EntriesPurged(log, before, ShelfOf(m), all, now);
  }

  /** All of `all` but `rest` are logged and tombstoned; their rows still stand. */
  ghost predicate Burying(log: seq<LoggedEntry>, before: Shelf, tombstones: map<Uuid, Option<int>>, all: set<Uuid>, rest: set<Uuid>, now: int) {
    tombstones == Buried(before.tombstones, all - rest, now) && Logged(log, before.entries, all - rest)
  }

  lemma NothingBuried(before: Shelf, all: set<Uuid>, now: int)
    ensures Burying([], before, before.tombstones, all, all, now)
  {
    assert all - all == {} && Buried(before.tombstones, {}, now) == before.tombstones;
  }

  lemma EntriesPurged(log: seq<LoggedEntry>, before: Shelf, after: Shelf, all: set<Uuid>, now: int)
    requires Burying(log, before, after.tombstones, all, {}, now)
    requires after.groups == before.groups && after.entries == before.entries - all
    ensures Purged(before, after, {}, all, now) && Logged(log, before.entries, all)
  {
    assert all - {} == all && {} + all == all && before.groups - {} == before.groups;
  }

  lemma OneEntryMore(log: seq<LoggedEntry>, before: Shelf, tombstones: map<Uuid, Option<int>>, all: set<Uuid>, rest: set<Uuid>, e: Uuid, now: int)
    requires e in rest && rest <= all && e in before.entries && Burying(log, before, tombstones, all, rest, now)
    ensures Burying(log + [LoggedEntry(e, before.entries[e].group)], before, tombstones[e := Some(now)], all, rest - {e}, now)
  {
    var last := [LoggedEntry(e, before.entries[e].group)];
    assert last[0].id == e;
    assert Logged(last, before.entries - (all - rest), {e});
    EntryLogsJoin(log, last, before.entries, all - rest, {e});
    assert all - (rest - {e}) == (all - rest) + {e};
  }

  /** Delete one group row. The foreign keys demand that nothing refers to it. */
  method DeleteGroupRow(m: Mirror, u: Uuid, now: int)
    requires ChildrenOf(m.groups, u) == {} && EntriesIn(m.entries, {u}) == {}
    modifies m`groups, m`tombstones, m`mutationSeq
    ensures Purged(old(ShelfOf(m)), ShelfOf(m), {u}, {}, now)
    ensures m.mutationSeq >= old(m.mutationSeq)
  {
    m.groups := m.groups - {u};
    m.tombstones := m.tombstones[u := Some(now)];
    m.mutationSeq := m.mutationSeq + 2;
    assert {u} + {} == {u};
    assert m.entries == m.entries - {};
  }

  /** The loop over a group's children, `rest` of which are still to do. */
  ghost predicate Cascading(before: Shelf, now: Shelf, u: Uuid, rest: set<Uuid>, log: seq<LoggedGroup>, entryLog: seq<LoggedEntry>, at: int) {
    var done := Below(before.groups, ChildrenOf(before.groups, u) - rest);
    && rest <= ChildrenOf(before.groups, u)
    && Purged(before, now, done, EntriesIn(before.entries, done), at)
    && LeavesFirst(log, before.groups, done)
    && Logged(entryLog, before.entries, EntriesIn(before.entries, done))
  }

  lemma CascadeStarts(before: Shelf, u: Uuid, at: int)
    ensures Cascading(before, before, u, ChildrenOf(before.groups, u), [], [], at)
  {
    var children := ChildrenOf(before.groups, u);
    assert children - children == {};
    assert Below(before.groups, {}) == {};
    assert EntriesIn(before.entries, {}) == {};
    assert before.groups == before.groups - {} && before.entries == before.entries - {};
    assert Buried(before.tombstones, {} + {}, at) == before.tombstones;
  }

  /** The next child is still there, with its own subtree whole. */
  lemma NextChild(before: Shelf, now: Shelf, u: Uuid, rest: set<Uuid>, log: seq<LoggedGroup>, entryLog: seq<LoggedEntry>, at: int, c: Uuid)
    requires Acyclic(ParentsOf(before.groups)) && u in before.groups
    requires Cascading(before, now, u, rest, log, entryLog, at) && c in rest
    ensures Acyclic(ParentsOf(now.groups)) && c in now.groups && now.groups[c].parent == Some(u)
    ensures Subtree(now.groups, c) == Subtree(before.groups, c) - Below(before.groups, ChildrenOf(before.groups, u) - rest)
    ensures Subtree(now.groups, c) < Subtree(before.groups, u)
  {
    var p := ParentsOf(before.groups);
    var children := ChildrenOf(before.groups, u);
    var done := Below(before.groups, children - rest);
    BelowIsDownward(before.groups, children - rest);
    SurvivorsAcyclic(before.groups, done);
    SubtreeAfter(before.groups, done, c);
    if c in done {
      var b :| b in children - rest && Within(p, c, b);
      SiblingsApart(before.groups, u, c, b);
    }
    WithinSelf(p, u);
    WithinSelf(p, c);
    WithinChild(p, c, u);
    NotBelowChild(before.groups, u, c);
    forall d | d in Subtree(now.groups, c) ensures d in Subtree(before.groups, u) {
      WithinTransitive(p, d, c, u);
    }
    assert u in Subtree(before.groups, u) && u !in Subtree(now.groups, c);
  }

  lemma ChildDone(before: Shelf, now: Shelf, after: Shelf, u: Uuid, rest: set<Uuid>, c: Uuid, at: int,
                  log: seq<LoggedGroup>, entryLog: seq<LoggedEntry>, more: seq<LoggedGroup>, moreEntries: seq<LoggedEntry>)
    requires Acyclic(ParentsOf(before.groups)) && u in before.groups
    requires Cascading(before, now, u, rest, log, entryLog, at) && c in rest
    requires Purged(now, after, Subtree(now.groups, c), EntriesIn(now.entries, Subtree(now.groups, c)), at)
    requires LeavesFirst(more, now.groups, Subtree(now.groups, c))
    requires Logged(moreEntries, now.entries, EntriesIn(now.entries, Subtree(now.groups, c)))
    ensures Cascading(before, after, u, rest - {c}, log + more, entryLog + moreEntries, at)
  {
    var children := ChildrenOf(before.groups, u);
    var done := Below(before.groups, children - rest);
    var sub := Subtree(now.groups, c);
    NextChild(before, now, u, rest, log, entryLog, at, c);
    BelowIsDownward(before.groups, children - rest);
    assert children - (rest - {c}) == (children - rest) + {c};
    BelowGrows(before.groups, children - rest, c);
    assert done + sub == done + Subtree(before.groups, c);
    assert sub - done == sub;
    PurgedSubtree(before, now, after, done, sub, at);
    LogsJoin(log, more, before.groups, done, sub);
    EntriesSplit(before.entries, done, sub);
    EntryLogsJoin(entryLog, moreEntries, before.entries, EntriesIn(before.entries, done), EntriesIn(now.entries, sub));
  }

  lemma PurgedSubtree(before: Shelf, now: Shelf, after: Shelf, done: set<Uuid>, sub: set<Uuid>, at: int)
    requires Purged(before, now, done, EntriesIn(before.entries, done), at) && sub - done == sub
    requires Purged(now, after, sub, EntriesIn(now.entries, sub), at)
    ensures Purged(before, after, done + sub, EntriesIn(before.entries, done + sub), at)
  {
    PurgedTwice(before, now, after, done, EntriesIn(before.entries, done), sub, EntriesIn(now.entries, sub), at);
    EntriesSplit(before.entries, done, sub);
  }

  /** Everything below `u`, and the entries in `u` itself; the row of `u` stays. */
  method DeleteContents(m: Mirror, u: Uuid, now: int) returns (log: seq<LoggedGroup>, entryLog: seq<LoggedEntry>)
    requires Acyclic(ParentsOf(m.groups)) && u in m.groups
    modifies m`groups, m`entries, m`tombstones, m`mutationSeq
    ensures Purged(old(ShelfOf(m)), ShelfOf(m), Subtree(old(m.groups), u) - {u}, EntriesIn(old(m.entries), Subtree(old(m.groups), u)), now)
    ensures LeavesFirst(log, old(m.groups), Subtree(old(m.groups), u) - {u})
    ensures Logged(entryLog, old(m.entries), EntriesIn(old(m.entries), Subtree(old(m.groups), u)))
    ensures m.mutationSeq >= old(m.mutationSeq)
    decreases Subtree(m.groups, u), 0
  {
    ghost var before := ShelfOf(m);
    var rest := set c | c in m.groups && m.groups[c].parent == Some(u);
    log, entryLog := [], [];
    CascadeStarts(before, u, now);
    while rest != {}
      invariant Cascading(before, ShelfOf(m), u, rest, log, entryLog, now)
      invariant m.mutationSeq >= old(m.mutationSeq)
      decreases rest
    {
      var c :| c in rest;
      ghost var current := ShelfOf(m);
      NextChild(before, current, u, rest, log, entryLog, now, c);
      var more, moreEntries := DeleteGroupRecursive(m, c, Some(u), now);
      ChildDone(before, current, ShelfOf(m), u, rest, c, now, log, entryLog, more, moreEntries);
      log, entryLog := log + more, entryLog + moreEntries;
      rest := rest - {c};
    }
    ghost var current := ShelfOf(m);
    var direct := DeleteDirectChildEntries(m, u, now);
    ContentsDone(before, current, ShelfOf(m), u, now, log, entryLog, direct);
    entryLog := entryLog + direct;
  }

  lemma ContentsDone(before: Shelf, now: Shelf, after: Shelf, u: Uuid, at: int,
                     log: seq<LoggedGroup>, entryLog: seq<LoggedEntry>, direct: seq<LoggedEntry>)
    requires Acyclic(ParentsOf(before.groups)) && u in before.groups
    requires Cascading(before, now, u, {}, log, entryLog, at)
    requires Purged(now, after, {}, EntriesIn(now.entries, {u}), at)
    requires Logged(direct, now.entries, EntriesIn(now.entries, {u}))
    ensures Purged(before, after, Subtree(before.groups, u) - {u}, EntriesIn(before.entries, Subtree(before.groups, u)), at)
    ensures LeavesFirst(log, before.groups, Subtree(before.groups, u) - {u})
    ensures Logged(entryLog + direct, before.entries, EntriesIn(before.entries, Subtree(before.groups, u)))
  {
    var children := ChildrenOf(before.groups, u);
    var below := Below(before.groups, children);
    assert children - {} == children;
    BelowChildren(before.groups, u);
    PurgedTwice(before, now, after, below, EntriesIn(before.entries, below), {}, EntriesIn(now.entries, {u}), at);
    EntriesSplit(before.entries, below, {u});
    assert {u} - below == {u} && below + {u} == Subtree(before.groups, u) && below + {} == below;
    EntryLogsJoin(entryLog, direct, before.entries, EntriesIn(before.entries, below), EntriesIn(now.entries, {u}));
  }

  /** Delete `u` with everything below it, leaves first. */
  method DeleteGroupRecursive(m: Mirror, u: Uuid, parent: Option<Uuid>, now: int) returns (log: seq<LoggedGroup>, entryLog: seq<LoggedEntry>)
    requires Acyclic(ParentsOf(m.groups)) && u in m.groups && m.groups[u].parent == parent
    modifies m`groups, m`entries, m`tombstones, m`mutationSeq
    ensures Purged(old(ShelfOf(m)), ShelfOf(m), Subtree(old(m.groups), u), EntriesIn(old(m.entries), Subtree(old(m.groups), u)), now)
    ensures LeavesFirst(log, old(m.groups), Subtree(old(m.groups), u))
    ensures Logged(entryLog, old(m.entries), EntriesIn(old(m.entries), Subtree(old(m.groups), u)))
    ensures m.mutationSeq >= old(m.mutationSeq)
    decreases Subtree(m.groups, u), 1
  {
    ghost var before := ShelfOf(m);
    log, entryLog := DeleteContents(m, u, now);
    NothingLeft(before, ShelfOf(m), u, now);
    ghost var current := ShelfOf(m);
    DeleteGroupRow(m, u, now);
    TopDone(before, current, ShelfOf(m), u, now, log);
    log := log + [LoggedGroup(u, parent)];
  }

  lemma NothingLeft(before: Shelf, now: Shelf, u: Uuid, at: int)
    requires Acyclic(ParentsOf(before.groups)) && u in before.groups
    requires Purged(before, now, Subtree(before.groups, u) - {u}, EntriesIn(before.entries, Subtree(before.groups, u)), at)
    ensures ChildrenOf(now.groups, u) == {} && EntriesIn(now.entries, {u}) == {}
  {
    BelowChildren(before.groups, u);
    forall c | c in ChildrenOf(before.groups, u) ensures c in Subtree(before.groups, u) - {u} {
      WithinSelf(ParentsOf(before.groups), c);
      assert c in Below(before.groups, ChildrenOf(before.groups, u));
    }
  }

  lemma TopDone(before: Shelf, now: Shelf, after: Shelf, u: Uuid, at: int, log: seq<LoggedGroup>)
    requires Acyclic(ParentsOf(before.groups)) && u in before.groups
    requires Purged(before, now, Subtree(before.groups, u) - {u}, EntriesIn(before.entries, Subtree(before.groups, u)), at)
    requires Purged(now, after, {u}, {}, at)
    requires LeavesFirst(log, before.groups, Subtree(before.groups, u) - {u})
    ensures Purged(before, after, Subtree(before.groups, u), EntriesIn(before.entries, Subtree(before.groups, u)), at)
    ensures LeavesFirst(log + [LoggedGroup(u, before.groups[u].parent)], before.groups, Subtree(before.groups, u))
  {
    var below, all := Subtree(before.groups, u) - {u}, EntriesIn(before.entries, Subtree(before.groups, u));
    PurgedTwice(before, now, after, below, all, {u}, {}, at);
    BelowChildren(before.groups, u);
    BelowIsDownward(before.groups, ChildrenOf(before.groups, u));
    assert below + {u} == Subtree(before.groups, u) && all + {} == all;
    var last := [LoggedGroup(u, before.groups[u].parent)];
    assert last[0].id == u;
    LogsJoin(log, last, before.groups, below, {u});
  }

  lemma NothingAboveRoot(p: Parents, root: Uuid, u: Uuid)
    requires root !in p && u != root
    ensures !Within(p, root, u)
  {
  }

  /** A deletion of whole subtrees below the root leaves one finite tree with
      every entry housed. */
  lemma PurgeKeepsTree(before: Shelf, after: Shelf, gone: set<Uuid>, entries: set<Uuid>, root: Uuid, at: int)
    requires GroupTree(before.groups, root) && Resolves(before.groups, before.entries)
    requires Purged(before, after, gone, entries, at) && EntriesIn(before.entries, gone) <= entries
    requires Downward(before.groups, gone) && root !in gone
    ensures GroupTree(after.groups, root) && Resolves(after.groups, after.entries)
  {
    GroupsClosedParents(before.groups, root);
    AcyclicIsTree(ParentsOf(before.groups), root);
    SurvivorsAcyclic(before.groups, gone);
    forall e | e in after.entries ensures after.entries[e].group in after.groups {
      assert e in before.entries && e !in EntriesIn(before.entries, gone);
    }
    GroupsClosedParents(after.groups, root);
    AcyclicIsTree(ParentsOf(after.groups), root);
  }

  lemma DeletionKeepsTree(before: Shelf, after: Shelf, u: Uuid, root: Uuid, at: int)
    requires GroupTree(before.groups, root) && Resolves(before.groups, before.entries) && u in before.groups && u != root
    requires Purged(before, after, Subtree(before.groups, u), EntriesIn(before.entries, Subtree(before.groups, u)), at)
    ensures GroupTree(after.groups, root) && Resolves(after.groups, after.entries)
  {
    assert Subtree(before.groups, u) == Below(before.groups, {u});
    BelowIsDownward(before.groups, {u});
    NothingAboveRoot(ParentsOf(before.groups), root, u);
    PurgeKeepsTree(before, after, Subtree(before.groups, u), EntriesIn(before.entries, Subtree(before.groups, u)), root, at);
  }

  lemma EmptyingKeepsTree(before: Shelf, after: Shelf, u: Uuid, root: Uuid, at: int)
    requires GroupTree(before.groups, root) && Resolves(before.groups, before.entries) && u in before.groups
    requires Purged(before, after, Subtree(before.groups, u) - {u}, EntriesIn(before.entries, Subtree(before.groups, u)), at)
    ensures GroupTree(after.groups, root) && Resolves(after.groups, after.entries)
  {
    GroupsClosedParents(before.groups, root);
    AcyclicIsTree(ParentsOf(before.groups), root);
    BelowChildren(before.groups, u);
    BelowIsDownward(before.groups, ChildrenOf(before.groups, u));
    if u != root {
      NothingAboveRoot(ParentsOf(before.groups), root, u);
    }
    PurgeKeepsTree(before, after, Subtree(before.groups, u) - {u}, EntriesIn(before.entries, Subtree(before.groups, u)), root, at);
  }

  datatype DeleteOutcome = NoSuchGroup | Deleted(groups: seq<LoggedGroup>, entries: seq<LoggedEntry>)

  method DeleteGroup(m: Mirror, u: Uuid, now: int, ghost root: Uuid) returns (outcome: DeleteOutcome)
    requires GroupTree(m.groups, root) && Resolves(m.groups, m.entries)
    modifies m`groups, m`entries, m`tombstones, m`mutationSeq
    ensures outcome.NoSuchGroup? <==> u !in old(m.groups)
    ensures outcome.NoSuchGroup? ==> ShelfOf(m) == old(ShelfOf(m)) && m.mutationSeq == old(m.mutationSeq)
    ensures outcome.Deleted? ==>
      && Purged(old(ShelfOf(m)), ShelfOf(m), Subtree(old(m.groups), u), EntriesIn(old(m.entries), Subtree(old(m.groups), u)), now)
      && LeavesFirst(outcome.groups, old(m.groups), Subtree(old(m.groups), u))
      && Logged(outcome.entries, old(m.entries), EntriesIn(old(m.entries), Subtree(old(m.groups), u)))
    ensures u != root ==> GroupTree(m.groups, root) && Resolves(m.groups, m.entries)
  {
    if u !in m.groups {
      return NoSuchGroup;
    }
    ghost var before := ShelfOf(m);
    GroupsClosedParents(m.groups, root);
    AcyclicIsTree(ParentsOf(m.groups), root);
    var log, entryLog := DeleteGroupRecursive(m, u, m.groups[u].parent, now);
    if u != root {
      DeletionKeepsTree(before, ShelfOf(m), u, root, now);
    }
    outcome := Deleted(log, entryLog);
  }

  /** Emptying the bin purges exactly what is inside it and keeps the bin. */
  method EmptyRecycleBin(m: Mirror, now: int, ghost root: Uuid) returns (bin: Option<Uuid>, log: seq<LoggedGroup>, entryLog: seq<LoggedEntry>)
    requires GroupTree(m.groups, root) && Resolves(m.groups, m.entries)
    modifies m`groups, m`entries, m`tombstones, m`mutationSeq
    ensures GroupTree(m.groups, root) && Resolves(m.groups, m.entries)
    ensures bin.None? ==> (forall u :: !IsBin(m.groups, u)) && ShelfOf(m) == old(ShelfOf(m)) && m.mutationSeq == old(m.mutationSeq)
    ensures bin.Some? ==>
      var inside := Subtree(old(m.groups), bin.value);
      && IsBin(m.groups, bin.value)
      && Purged(old(ShelfOf(m)), ShelfOf(m), inside - {bin.value}, EntriesIn(old(m.entries), inside), now)
      && LeavesFirst(log, old(m.groups), inside - {bin.value})
      && Logged(entryLog, old(m.entries), EntriesIn(old(m.entries), inside))
  {
    log, entryLog := [], [];
    bin := RecycleBinUuid(m.groups);
    if bin.None? {
      return;
    }
    ghost var before := ShelfOf(m);
    GroupsClosedParents(m.groups, root);
    AcyclicIsTree(ParentsOf(m.groups), root);
    log, entryLog := DeleteContents(m, bin.value, now);
    EmptyingKeepsTree(before, ShelfOf(m), bin.value, root, now);
  }
}
