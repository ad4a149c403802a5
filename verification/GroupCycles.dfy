/** Breaking the cycles that concurrent group moves leave behind. */
module GroupCycles {
  import opened Order
  import opened GroupGraph
  import opened Store

  /** `u` is the smallest member of a cycle. */
  ghost predicate SmallestOnCycle(p: Parents, u: Uuid) {
    && OnCycle(p, u)
    && forall k: nat :: Ancestor(p, u, k).Some? ==> u <= Ancestor(p, u, k).value
  }

  /** What the pass is for: the smallest member of every cycle hangs off the
      root, and every other edge stays. Nothing here mentions an order in which
      groups or cycles are visited. */
  ghost function Broken(p: Parents, root: Uuid): (q: Parents)
    ensures q.Keys == p.Keys
  {
    map u | u in p :: if SmallestOnCycle(p, u) then root else p[u]
  }

  // ----- one step of the loop

  /** Two smallest members of the same cycle are the same group. */
  lemma SmallestIsUnique(p: Parents, u: Uuid, v: Uuid, k: nat)
    requires SmallestOnCycle(p, u) && SmallestOnCycle(p, v)
    requires Ancestor(p, u, k) == Some(v)
    ensures u == v
  {
    var j := CycleReturns(p, u, k);
    assert v <= Ancestor(p, v, j).value;
  }

  /** Once `v` hangs off the parentless root, no cycle goes through `v`. */
  lemma RerootedIsOffCycles(q: Parents, root: Uuid, v: Uuid, u: Uuid, k: nat)
    requires root !in q && v in q && q[v] == root
    requires OnCycle(q, u)
    ensures Ancestor(q, u, k) != Some(v)
  {
    if Ancestor(q, u, k) == Some(v) {
      CycleMembers(q, u, k);
      CycleMembers(q, v, 1);
      assert Ancestor(q, v, 1) == Ancestor(q, root, 0);
      ParentlessNotOnCycle(q, root);
    }
  }

  /** Re-rooting the smallest member of one cycle leaves every other cycle, and
      its smallest member, as they were. */
  lemma RerootKeepsOthers(p: Parents, root: Uuid, v: Uuid, u: Uuid)
    requires root !in p && v in p && SmallestOnCycle(p, v)
    ensures SmallestOnCycle(p[v := root], u) <==> SmallestOnCycle(p, u) && u != v
  {
    var q := p[v := root];
    if SmallestOnCycle(q, u) {
      forall k: nat ensures Ancestor(q, u, k) == Ancestor(p, u, k) {
        forall i: nat | i < k ensures Ancestor(q, u, i) != Some(v) {
          RerootedIsOffCycles(q, root, v, u, i);
        }
        AncestorAvoidsBack(p, q, v, u, k);
      }
      assert OnCycle(p, u);
      RerootedIsOffCycles(q, root, v, u, 0);
    }
    if SmallestOnCycle(p, u) && u != v {
      forall k: nat ensures Ancestor(q, u, k) == Ancestor(p, u, k) {
        forall i: nat | i < k ensures Ancestor(p, u, i) != Some(v) {
          if Ancestor(p, u, i) == Some(v) {
            SmallestIsUnique(p, u, v, i);
          }
        }
        AncestorAvoids(p, v, root, u, k);
      }
      assert OnCycle(q, u);
    }
  }

  /** So one step of the loop does not change where the loop is heading. */
  lemma RerootKeepsBroken(p: Parents, root: Uuid, v: Uuid)
    requires root !in p && v in p && SmallestOnCycle(p, v)
    ensures Broken(p[v := root], root) == Broken(p, root)
  {
    forall u | u in p
      ensures Broken(p[v := root], root)[u] == Broken(p, root)[u]
    {
      RerootKeepsOthers(p, root, v, u);
    }
  }

  lemma BrokenOfAcyclic(p: Parents, root: Uuid)
    requires Acyclic(p)
    ensures Broken(p, root) == p
  {
  }

  // ----- what the result is

  /** In any broken map the only way to stay on a cycle would be to have been on
      it before, and then its smallest member would have been re-rooted. */
  lemma BrokenIsAcyclic(p: Parents, root: Uuid)
    requires root !in p
    ensures Acyclic(Broken(p, root))
  {
    var q := Broken(p, root);
    forall u: Uuid ensures !OnCycle(q, u) {
      if OnCycle(q, u) {
        forall k: nat ensures Ancestor(q, u, k) == Ancestor(p, u, k) {
          BrokenCycleIsOld(p, root, u, k);
        }
        var n: nat :| n > 0 && Ancestor(q, u, n) == Some(u);
        assert OnCycle(p, u);
        var k := SmallestExists(p, u, n);
        var v := Ancestor(p, u, k).value;
        CycleMembers(q, u, k);
        CycleMembers(q, v, 1);
        assert q[v] == root;
        assert Ancestor(q, v, 1) == Ancestor(q, root, 0);
        ParentlessNotOnCycle(q, root);
      }
    }
  }

  lemma {:induction false} BrokenCycleIsOld(p: Parents, root: Uuid, u: Uuid, k: nat)
    requires root !in p
    requires OnCycle(Broken(p, root), u)
    ensures Ancestor(Broken(p, root), u, k) == Ancestor(p, u, k)
    decreases k
  {
    var q := Broken(p, root);
    if k > 0 {
      CycleMembers(q, u, 1);
      assert u in q && Ancestor(q, u, 1) == Ancestor(q, q[u], 0);
      if q[u] == root {
        ParentlessNotOnCycle(q, root);
      }
      BrokenCycleIsOld(p, root, q[u], k - 1);
    }
  }

  /** Every cycle has a smallest member. */
  lemma SmallestExists(p: Parents, u: Uuid, n: nat) returns (k: nat)
    requires n > 0 && Ancestor(p, u, n) == Some(u)
    ensures Ancestor(p, u, k).Some? && SmallestOnCycle(p, Ancestor(p, u, k).value)
  {
    assert OnCycle(p, u);
    CycleNeverEnds(p, u, 0);
    k := 0;
    var best := u;
    while !SmallestOnCycle(p, best)
      invariant Ancestor(p, u, k) == Some(best)
      decreases best
    {
      CycleMembers(p, u, k);
      var j: nat :| Ancestor(p, best, j).Some? && Ancestor(p, best, j).value < best;
      AncestorSplit(p, u, k, j);
      k, best := k + j, Ancestor(p, best, j).value;
    }
  }

  /** For every closed parent map with a parentless root: breaking the cycles
      gives one finite tree under the root. */
  lemma BrokenIsTree(p: Parents, root: Uuid)
    requires Closed(p, root)
    ensures Tree(Broken(p, root), root)
  {
    BrokenIsAcyclic(p, root);
    AcyclicIsTree(Broken(p, root), root);
  }

  // ----- finding a cycle

  /** `c` lists the members of one cycle, each followed by its parent. */
  ghost predicate IsCycle(p: Parents, c: seq<Uuid>) {
    && |c| > 0
    && (forall i :: 0 <= i < |c| ==> c[i] in p)
    && (forall i :: 0 <= i < |c| - 1 ==> p[c[i]] == c[i + 1])
    && p[c[|c| - 1]] == c[0]
  }

  lemma {:induction false} PathIsAncestors(p: Parents, path: seq<Uuid>, k: nat)
    requires k < |path|
    requires forall i :: 0 <= i < |path| - 1 ==> path[i] in p && p[path[i]] == path[i + 1]
    ensures Ancestor(p, path[0], k) == Some(path[k])
  {
    if k > 0 {
      PathIsAncestors(p, path[1..], k - 1);
    }
  }

  /** Around the cycle from its member `c[i]`, every ancestor is a member. */
  lemma {:induction false} CycleListed(p: Parents, c: seq<Uuid>, i: nat, k: nat)
    requires IsCycle(p, c) && i < |c|
    ensures Ancestor(p, c[i], k).Some? && Ancestor(p, c[i], k).value in c
    decreases k
  {
    if k > 0 {
      CycleListed(p, c, if i + 1 < |c| then i + 1 else 0, k - 1);
    }
  }

  lemma ListedOnCycle(p: Parents, c: seq<Uuid>, i: nat)
    requires IsCycle(p, c) && i < |c|
    ensures OnCycle(p, c[i])
  {
    PathIsAncestors(p, c, |c| - 1);
    AncestorSplit(p, c[0], |c| - 1, 1);
    assert Ancestor(p, c[|c| - 1], 1) == Ancestor(p, c[0], 0);
    assert OnCycle(p, c[0]);
    PathIsAncestors(p, c, i);
    CycleMembers(p, c[0], i);
  }

  /** `path` are the groups walked from `start` so far, `cur` comes next. */
  ghost predicate WalkedTo(p: Parents, start: Uuid, path: seq<Uuid>, cur: Uuid) {
    && (forall i :: 0 <= i < |path| ==> path[i] in p)
    && (forall i :: 0 <= i < |path| - 1 ==> p[path[i]] == path[i + 1])
    && (if path == [] then cur == start else path[0] == start && p[path[|path| - 1]] == cur)
    && (forall i, j :: 0 <= i < j < |path| ==> path[i] != path[j])
  }

  lemma WalkOn(p: Parents, start: Uuid, path: seq<Uuid>, cur: Uuid)
    requires WalkedTo(p, start, path, cur) && cur in p && cur !in path
    ensures WalkedTo(p, start, path + [cur], p[cur])
    ensures |path| < |p|
  {
    DistinctFits(path + [cur], p.Keys);
  }

  lemma WalkCloses(p: Parents, start: Uuid, path: seq<Uuid>, cur: Uuid, pos: nat)
    requires WalkedTo(p, start, path, cur) && pos < |path| && path[pos] == cur
    ensures IsCycle(p, path[pos..])
  {
    var c := path[pos..];
    forall i | 0 <= i < |c| - 1 ensures p[c[i]] == c[i + 1] {
      assert c[i] == path[pos + i] && c[i + 1] == path[pos + i + 1];
    }
  }

  lemma WalkEnds(p: Parents, start: Uuid, path: seq<Uuid>, cur: Uuid)
    requires WalkedTo(p, start, path, cur) && cur !in p
    ensures !OnCycle(p, start)
  {
    var all := path + [cur];
    forall i | 0 <= i < |all| - 1 ensures all[i] in p && p[all[i]] == all[i + 1] {
      assert all[i] == path[i];
    }
    PathIsAncestors(p, all, |path|);
    if OnCycle(p, start) {
      CycleMembers(p, start, |path|);
      ParentlessNotOnCycle(p, cur);
    }
  }

  /** The walk behind one start group. It stops at a repeated group or at a
      parentless one. */
  method WalkFrom(p: Parents, start: Uuid) returns (cycle: Option<seq<Uuid>>)
    ensures cycle.Some? ==> IsCycle(p, cycle.value)
    ensures cycle.None? ==> !OnCycle(p, start)
  {
    var path: seq<Uuid> := [];
    var cur := start;
    while true
      invariant WalkedTo(p, start, path, cur)
      decreases |p| - |path|
    {
      if cur in path {
        var pos :| 0 <= pos < |path| && path[pos] == cur;
        WalkCloses(p, start, path, cur, pos);
        return Some(path[pos..]);
      }
      if cur !in p {
        WalkEnds(p, start, path, cur);
        return None;
      }
      WalkOn(p, start, path, cur);
      path, cur := path + [cur], p[cur];
    }
  }

  /** One cycle of `p`, whichever start group is tried first. */
  method FindOneCycle(p: Parents) returns (cycle: Option<seq<Uuid>>)
    ensures cycle.Some? ==> IsCycle(p, cycle.value)
    ensures cycle.None? <==> Acyclic(p)
  {
    var starts := p.Keys;
    while starts != {}
      invariant starts <= p.Keys
      invariant forall u :: u in p.Keys - starts ==> !OnCycle(p, u)
    {
      var start :| start in starts;
      cycle := WalkFrom(p, start);
      if cycle.Some? {
        ListedOnCycle(p, cycle.value, 0);
        return;
      }
      starts := starts - {start};
    }
    forall u: Uuid ensures !OnCycle(p, u) {
      if u !in p {
        ParentlessNotOnCycle(p, u);
      } else {
        assert u in p.Keys - starts;
      }
    }
    return None;
  }

  method Smallest(members: seq<Uuid>) returns (least: Uuid)
    requires |members| > 0
    ensures least in members && forall u :: u in members ==> least <= u
  {
    least := members[0];
    for i := 0 to |members|
      invariant least in members && forall j :: 0 <= j < i ==> least <= members[j]
    {
      if members[i] < least {
        least := members[i];
      }
    }
  }

  // ----- the pass over the group table

  /** The group table with its parent columns taken from `p`. */
  ghost function WithParents(groups: map<Uuid, GroupRow>, p: Parents): map<Uuid, GroupRow> {
    map u | u in groups :: if u in p then groups[u].(parent := Some(p[u])) else groups[u]
  }

  ghost function NotUnder(p: Parents, root: Uuid): set<Uuid> {
    set u | u in p && p[u] != root
  }

  /** The loop's state: some cycles of `start` have been broken, and breaking
      the rest leads where breaking all of `start` does. */
  ghost predicate OnTheWay(start: map<Uuid, GroupRow>, now: map<Uuid, GroupRow>, root: Uuid) {
    && root !in ParentsOf(now)
    && ParentsOf(now).Keys == ParentsOf(start).Keys
    && now == WithParents(start, ParentsOf(now))
    && Broken(ParentsOf(now), root) == Broken(ParentsOf(start), root)
  }

  function Rerooted(groups: map<Uuid, GroupRow>, u: Uuid, root: Uuid): map<Uuid, GroupRow>
    requires u in groups
  {
    groups[u := groups[u].(parent := Some(root))]
  }

  lemma RerootStep(start: map<Uuid, GroupRow>, now: map<Uuid, GroupRow>, root: Uuid, victim: Uuid)
    requires OnTheWay(start, now, root)
    requires SmallestOnCycle(ParentsOf(now), victim)
    ensures victim in ParentsOf(now)
    ensures OnTheWay(start, Rerooted(now, victim, root), root)
    ensures NotUnder(ParentsOf(Rerooted(now, victim, root)), root) < NotUnder(ParentsOf(now), root)
  {
    CycleMissesRoot(ParentsOf(now), root, victim);
    ParentsChange(now, victim, root);
    RerootKeepsBroken(ParentsOf(now), root, victim);
    VictimWasElsewhere(ParentsOf(now), root, victim);
  }

  /** Re-root cycles until none is left. Whatever order the cycles are found in,
      the table ends as `Broken` says, and exactly an acyclic table is not
      written. */
  method BreakGroupCycles(m: Mirror, root: Uuid)
    requires root !in ParentsOf(m.groups)
    modifies m`groups, m`mutationSeq
    ensures m.groups == WithParents(old(m.groups), Broken(ParentsOf(old(m.groups)), root))
    ensures ParentsOf(m.groups) == Broken(ParentsOf(old(m.groups)), root)
    ensures m.mutationSeq >= old(m.mutationSeq)
    ensures m.mutationSeq == old(m.mutationSeq) <==> Acyclic(ParentsOf(old(m.groups)))
  {
    ghost var start := m.groups;
    while true
      invariant OnTheWay(start, m.groups, root)
      invariant m.mutationSeq >= old(m.mutationSeq)
      invariant m.mutationSeq == old(m.mutationSeq) ==> m.groups == start
      invariant m.mutationSeq > old(m.mutationSeq) ==> !Acyclic(ParentsOf(start))
      decreases NotUnder(ParentsOf(m.groups), root)
    {
      var cycle := FindOneCycle(ParentsOf(m.groups));
      if cycle.None? {
        BrokenOfAcyclic(ParentsOf(m.groups), root);
        return;
      }
      var victim := Smallest(cycle.value);
      ghost var i :| 0 <= i < |cycle.value| && cycle.value[i] == victim;
      VictimIsSmallest(ParentsOf(m.groups), cycle.value, i);
      RerootStep(start, m.groups, root, victim);
      m.groups := Rerooted(m.groups, victim, root);
      m.mutationSeq := m.mutationSeq + 1;
    }
  }

  lemma ParentsChange(groups: map<Uuid, GroupRow>, u: Uuid, parent: Uuid)
    requires u in groups && groups[u].parent.Some?
    ensures ParentsOf(groups[u := groups[u].(parent := Some(parent))]) == ParentsOf(groups)[u := parent]
  {
  }

  lemma VictimIsSmallest(p: Parents, c: seq<Uuid>, i: nat)
    requires IsCycle(p, c) && i < |c|
    requires forall u :: u in c ==> c[i] <= u
    ensures SmallestOnCycle(p, c[i])
  {
    ListedOnCycle(p, c, i);
    forall k: nat | Ancestor(p, c[i], k).Some? ensures c[i] <= Ancestor(p, c[i], k).value {
      CycleListed(p, c, i, k);
    }
  }

  lemma VictimWasElsewhere(p: Parents, root: Uuid, v: Uuid)
    requires root !in p && v in p && OnCycle(p, v)
    ensures NotUnder(p[v := root], root) < NotUnder(p, root)
  {
    if p[v] == root {
      assert Ancestor(p, v, 1) == Ancestor(p, root, 0);
      CycleMissesRoot(p, root, v);
    }
    assert v in NotUnder(p, root) && v !in NotUnder(p[v := root], root);
  }
}
