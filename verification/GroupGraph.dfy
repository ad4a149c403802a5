/** Parent maps: ancestors, cycles, and the finite trees among them. */
module GroupGraph {
  import opened Order

  /** Group to parent. The root group, which has no parent, is not a key. */
  type Parents = map<Uuid, Uuid>

  /** The `n`-th ancestor of `u`, if the chain is that long. */
  ghost function Ancestor(p: Parents, u: Uuid, n: nat): Option<Uuid>
    decreases n
  {
    if n == 0 then Some(u)
    else if u in p then Ancestor(p, p[u], n - 1)
    else None
  }

  ghost predicate OnCycle(p: Parents, u: Uuid) {
    exists n: nat :: n > 0 && Ancestor(p, u, n) == Some(u)
  }

  ghost predicate Acyclic(p: Parents) {
    forall u :: !OnCycle(p, u)
  }

  /** Every parent is itself a group: a key, or the parentless root. */
  ghost predicate Closed(p: Parents, root: Uuid) {
    && root !in p
    && forall u {:trigger p[u]} :: u in p ==> p[u] in p || p[u] == root
  }

  ghost predicate ReachesRoot(p: Parents, root: Uuid, u: Uuid) {
    exists n: nat :: Ancestor(p, u, n) == Some(root)
  }

  /** One finite tree under `root`. */
  ghost predicate Tree(p: Parents, root: Uuid) {
    && Closed(p, root)
    && forall u {:trigger ReachesRoot(p, root, u)} :: u in p ==> ReachesRoot(p, root, u)
  }

  /** `d` is `u` or sits somewhere below it. */
  ghost predicate Within(p: Parents, d: Uuid, u: Uuid) {
    exists n: nat :: Ancestor(p, d, n) == Some(u)
  }

  // ----- ancestors

  lemma {:induction false} AncestorSplit(p: Parents, u: Uuid, m: nat, n: nat)
    requires Ancestor(p, u, m).Some?
    ensures Ancestor(p, u, m + n) == Ancestor(p, Ancestor(p, u, m).value, n)
    decreases m
  {
    if m > 0 {
      AncestorSplit(p, p[u], m - 1, n);
    }
  }

  lemma {:induction false} AncestorPrefix(p: Parents, u: Uuid, m: nat, n: nat)
    requires m <= n && Ancestor(p, u, n).Some?
    ensures Ancestor(p, u, m).Some?
    decreases m
  {
    if m > 0 {
      AncestorPrefix(p, p[u], m - 1, n - 1);
    }
  }

  /** A walk that never stands on `v` is not affected by re-parenting `v`. */
  lemma {:induction false} AncestorAvoids(p: Parents, v: Uuid, x: Uuid, u: Uuid, n: nat)
    requires forall k: nat :: k < n ==> Ancestor(p, u, k) != Some(v)
    ensures Ancestor(p[v := x], u, n) == Ancestor(p, u, n)
    decreases n
  {
    if n > 0 {
      assert Ancestor(p, u, 0) != Some(v);
      if u in p {
        forall k: nat | k < n - 1
          ensures Ancestor(p, p[u], k) != Some(v)
        {
          assert Ancestor(p, u, k + 1) == Ancestor(p, p[u], k);
        }
        AncestorAvoids(p, v, x, p[u], n - 1);
      }
    }
  }

  /** The same, in the other direction. */
  lemma AncestorAvoidsBack(p: Parents, q: Parents, v: Uuid, u: Uuid, n: nat)
    requires v in p && v in q && q == p[v := q[v]]
    requires forall k: nat :: k < n ==> Ancestor(q, u, k) != Some(v)
    ensures Ancestor(q, u, n) == Ancestor(p, u, n)
  {
    AncestorAvoids(q, v, p[v], u, n);
    assert q[v := p[v]] == p;
  }

  lemma {:induction false} AncestorIsGroup(p: Parents, root: Uuid, u: Uuid, n: nat)
    requires Closed(p, root) && (u in p || u == root)
    requires Ancestor(p, u, n).Some?
    ensures Ancestor(p, u, n).value in p || Ancestor(p, u, n).value == root
    decreases n
  {
    if n > 0 {
      AncestorIsGroup(p, root, p[u], n - 1);
    }
  }

  // ----- cycles

  /** Walking a cycle of length `n` any number of times comes back. */
  lemma {:induction false} CycleRepeats(p: Parents, u: Uuid, n: nat, times: nat)
    requires n > 0 && Ancestor(p, u, n) == Some(u)
    ensures Ancestor(p, u, n * times) == Some(u)
  {
    if times > 0 {
      CycleRepeats(p, u, n, times - 1);
      AncestorSplit(p, u, n, n * (times - 1));
      assert n + n * (times - 1) == n * times;
    }
  }

  /** From a member of a cycle the walk never ends. */
  lemma CycleNeverEnds(p: Parents, u: Uuid, k: nat)
    requires OnCycle(p, u)
    ensures Ancestor(p, u, k).Some?
  {
    var n: nat :| n > 0 && Ancestor(p, u, n) == Some(u);
    CycleRepeats(p, u, n, k);
    assert k <= n * k by { if k > 0 { MulGrows(n, k); } }
    AncestorPrefix(p, u, k, n * k);
  }

  lemma MulGrows(n: nat, k: nat)
    requires n > 0
    ensures k <= n * k
  {
  }

  /** Membership of a cycle is mutual: what a member reaches, reaches it back. */
  lemma CycleReturns(p: Parents, u: Uuid, k: nat) returns (j: nat)
    requires OnCycle(p, u)
    ensures Ancestor(p, u, k).Some?
    ensures j > 0 && Ancestor(p, Ancestor(p, u, k).value, j) == Some(u)
  {
    CycleNeverEnds(p, u, k);
    var n: nat :| n > 0 && Ancestor(p, u, n) == Some(u);
    CycleRepeats(p, u, n, k + 1);
    MulGrows(n, k + 1);
    j := n * (k + 1) - k;
    AncestorSplit(p, u, k, j);
  }

  lemma CycleMembers(p: Parents, u: Uuid, k: nat)
    requires OnCycle(p, u)
    ensures Ancestor(p, u, k).Some? && OnCycle(p, Ancestor(p, u, k).value)
  {
    var j := CycleReturns(p, u, k);
    var v := Ancestor(p, u, k).value;
    AncestorSplit(p, v, j, k);
    assert Ancestor(p, v, j + k) == Some(v);
  }

  /** A parentless group is on no cycle. */
  lemma ParentlessNotOnCycle(p: Parents, u: Uuid)
    requires u !in p
    ensures !OnCycle(p, u)
  {
    if OnCycle(p, u) {
      CycleNeverEnds(p, u, 1);
    }
  }

  // ----- trees

  lemma {:induction false} DistinctFits(s: seq<Uuid>, universe: set<Uuid>)
    requires forall i, j :: 0 <= i < j < |s| ==> s[i] != s[j]
    requires forall i :: 0 <= i < |s| ==> s[i] in universe
    ensures |s| <= |universe|
  {
    if s != [] {
      var last := s[|s| - 1];
      DistinctFits(s[..|s| - 1], universe - {last});
    }
  }

  /** The first `n` groups on the walk from `u`. */
  ghost function Walk(p: Parents, u: Uuid, n: nat): (s: seq<Uuid>)
    requires forall k: nat :: k < n ==> Ancestor(p, u, k).Some?
    ensures |s| == n && forall k :: 0 <= k < n ==> s[k] == Ancestor(p, u, k).value
  {
    seq(n, k requires 0 <= k < n => Ancestor(p, u, k).value)
  }

  /** Off every cycle, the groups on a walk are pairwise different. */
  lemma WalkDistinct(p: Parents, u: Uuid, i: nat, j: nat)
    requires Acyclic(p)
    requires i < j && Ancestor(p, u, j).Some?
    ensures Ancestor(p, u, i) != Ancestor(p, u, j)
  {
    AncestorPrefix(p, u, i, j);
    var v := Ancestor(p, u, i).value;
    AncestorSplit(p, u, i, j - i);
    if Ancestor(p, u, j) == Some(v) {
      assert Ancestor(p, v, j - i) == Some(v);
      assert OnCycle(p, v);
    }
  }

  /** So a walk is no longer than the number of groups. */
  lemma WalkBounded(p: Parents, u: Uuid, n: nat)
    requires Acyclic(p)
    requires Ancestor(p, u, n).Some?
    ensures n <= |p|
  {
    forall k: nat | k <= n ensures Ancestor(p, u, k).Some? {
      AncestorPrefix(p, u, k, n);
    }
    var s := Walk(p, u, n);
    forall k | 0 <= k < |s| ensures s[k] in p.Keys {
      AncestorSplit(p, u, k, 1);
    }
    forall i, j | 0 <= i < j < |s| ensures s[i] != s[j] {
      WalkDistinct(p, u, i, j);
    }
    DistinctFits(s, p.Keys);
  }

  /** A closed parent map is a tree exactly when it has no cycle. */
  lemma AcyclicIsTree(p: Parents, root: Uuid)
    requires Closed(p, root)
    ensures Acyclic(p) <==> Tree(p, root)
  {
    if Acyclic(p) {
      forall u | u in p ensures ReachesRoot(p, root, u) {
        AcyclicReaches(p, root, u, 0);
      }
    }
    if Tree(p, root) {
      forall u ensures !OnCycle(p, u) {
        if OnCycle(p, u) {
          CycleMissesRoot(p, root, u);
        }
      }
    }
  }

  lemma {:induction false} AcyclicReaches(p: Parents, root: Uuid, u: Uuid, n: nat)
    requires Closed(p, root) && Acyclic(p)
    requires u in p && Ancestor(p, u, n).Some?
    ensures ReachesRoot(p, root, u)
    decreases |p| - n
  {
    WalkBounded(p, u, n);
    AncestorIsGroup(p, root, u, n);
    AncestorSplit(p, u, n, 1);
    if Ancestor(p, u, n).value != root {
      WalkBounded(p, u, n + 1);
      AcyclicReaches(p, root, u, n + 1);
    }
  }

  lemma CycleMissesRoot(p: Parents, root: Uuid, u: Uuid)
    requires root !in p && OnCycle(p, u)
    ensures u in p && !ReachesRoot(p, root, u)
  {
    CycleNeverEnds(p, u, 1);
    if ReachesRoot(p, root, u) {
      var n: nat :| Ancestor(p, u, n) == Some(root);
      CycleMembers(p, u, n);
      ParentlessNotOnCycle(p, root);
    }
  }

  // ----- depth

  /** Number of steps from `u` up to the root of its tree. */
  ghost function Depth(p: Parents, root: Uuid, u: Uuid): (n: nat)
    requires Tree(p, root) && (u in p || u == root)
    ensures Ancestor(p, u, n) == Some(root)
  {
    assert ReachesRoot(p, root, u) by { RootReachesItself(p, root); }
    var n: nat :| Ancestor(p, u, n) == Some(root);
    n
  }

  lemma RootReachesItself(p: Parents, root: Uuid)
    ensures Ancestor(p, root, 0) == Some(root)
  {
  }

  lemma DepthIsUnique(p: Parents, root: Uuid, u: Uuid, m: nat, n: nat)
    requires root !in p
    requires Ancestor(p, u, m) == Some(root) && Ancestor(p, u, n) == Some(root)
    ensures m == n
  {
    var lo, hi := if m <= n then m else n, if m <= n then n else m;
    AncestorSplit(p, u, lo, hi - lo);
  }

  lemma DepthOfChild(p: Parents, root: Uuid, c: Uuid)
    requires Tree(p, root) && c in p
    ensures Depth(p, root, c) == Depth(p, root, p[c]) + 1
  {
    assert Ancestor(p, c, Depth(p, root, p[c]) + 1) == Some(root);
    DepthIsUnique(p, root, c, Depth(p, root, c), Depth(p, root, p[c]) + 1);
  }

  lemma DepthBounded(p: Parents, root: Uuid, u: Uuid)
    requires Tree(p, root) && (u in p || u == root)
    ensures Depth(p, root, u) <= |p|
  {
    AcyclicIsTree(p, root);
    WalkBounded(p, u, Depth(p, root, u));
  }

  // ----- subtrees

  lemma WithinSelf(p: Parents, u: Uuid)
    ensures Within(p, u, u)
  {
    assert Ancestor(p, u, 0) == Some(u);
  }

  lemma WithinChild(p: Parents, d: Uuid, u: Uuid)
    requires d in p && Within(p, p[d], u)
    ensures Within(p, d, u)
  {
    var n: nat :| Ancestor(p, p[d], n) == Some(u);
    assert Ancestor(p, d, n + 1) == Some(u);
  }

  lemma WithinTransitive(p: Parents, a: Uuid, b: Uuid, c: Uuid)
    requires Within(p, a, b) && Within(p, b, c)
    ensures Within(p, a, c)
  {
    var m: nat :| Ancestor(p, a, m) == Some(b);
    var n: nat :| Ancestor(p, b, n) == Some(c);
    AncestorSplit(p, a, m, n);
    assert Ancestor(p, a, m + n) == Some(c);
  }

  /** Below `u` means `u` itself, or below one of its children. */
  lemma WithinCases(p: Parents, d: Uuid, u: Uuid) returns (c: Uuid)
    requires Within(p, d, u) && d != u
    ensures c in p && p[c] == u && Within(p, d, c)
  {
    var n: nat :| Ancestor(p, d, n) == Some(u);
    AncestorPrefix(p, d, n - 1, n);
    c := Ancestor(p, d, n - 1).value;
    AncestorSplit(p, d, n - 1, 1);
    assert Ancestor(p, c, 1) == Some(u);
  }
}
