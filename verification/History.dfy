/** Archiving the pre-edit version of an entry and pruning its history to the
    vault's caps. */
module History {
  import opened Order

  /** One archived snapshot: its text, of which the length is charged. */
  type Snapshot = string

  const I32_MAX: int := 0x7fff_ffff
  const I64_MAX: int := 0x7fff_ffff_ffff_ffff

  /** Offset that moves all rows out of the way while they are renumbered. */
  const SHIFT: int := 1_000_000_000

  /** A negative cap is no cap. */
  function ItemsCap(maxItems: int): int {
    if maxItems < 0 then I32_MAX else maxItems
  }

  function SizeCap(maxSize: int): int {
    if maxSize < 0 then I64_MAX else maxSize
  }

  function SaturatingAdd(a: int, b: int): int {
    if a + b > I64_MAX then I64_MAX else a + b
  }

  /** Total size of the kept rows from `i` on. */
  function KeptSize(rows: seq<Snapshot>, keep: seq<bool>, i: nat): int
    requires |rows| == |keep| && i <= |rows|
    decreases |rows| - i
  {
    if i == |rows| then 0 else (if keep[i] then |rows[i]| else 0) + KeptSize(rows, keep, i + 1)
  }

  function KeptCount(keep: seq<bool>, i: nat): int
    requires i <= |keep|
    decreases |keep| - i
  {
    if i == |keep| then 0 else (if keep[i] then 1 else 0) + KeptCount(keep, i + 1)
  }

  /** `keep` is what a walk from the newest row keeps: each row exactly if the
      newer kept rows leave room for it under both caps. */
  ghost predicate NewestFirst(rows: seq<Snapshot>, keep: seq<bool>, items: int, size: int)
    requires |rows| == |keep|
  {
    forall i :: 0 <= i < |rows| ==>
      (keep[i] <==> KeptCount(keep, i + 1) < items && KeptSize(rows, keep, i + 1) + |rows[i]| <= size)
  }

  /** The rows picked by `keep`, in order. */
  function Kept<T>(rows: seq<T>, keep: seq<bool>): seq<T>
    requires |rows| == |keep|
  {
    if rows == [] then []
    else Kept(rows[..|rows| - 1], keep[..|keep| - 1]) + (if keep[|keep| - 1] then [rows[|rows| - 1]] else [])
  }

  /** The rows that are not picked. */
  function Unkept<T>(rows: seq<T>, keep: seq<bool>): seq<T>
    requires |rows| == |keep|
  {
    if rows == [] then []
    else Unkept(rows[..|rows| - 1], keep[..|keep| - 1]) + (if keep[|keep| - 1] then [] else [rows[|rows| - 1]])
  }

  /** The rows from `n` on have been judged. */
  ghost predicate Picked(rows: seq<Snapshot>, keep: seq<bool>, items: int, size: int, n: nat)
    requires |rows| == |keep|
  {
    forall i :: n <= i < |rows| ==>
      (keep[i] <==> KeptCount(keep, i + 1) < items && KeptSize(rows, keep, i + 1) + |rows[i]| <= size)
  }

  /** Walk newest-first, keeping what fits. */
  method PickSurvivors(rows: seq<Snapshot>, maxItems: int, maxSize: int) returns (keep: seq<bool>)
    requires |rows| < I32_MAX && SizeFrom(rows, 0) <= I64_MAX
    ensures |keep| == |rows| && NewestFirst(rows, keep, ItemsCap(maxItems), SizeCap(maxSize))
    ensures KeepsWhatFits(rows, keep, maxItems, maxSize)
  {
    keep := seq(|rows|, i => true);
    var kept, keptSize := 0, 0;
    var n: nat := |rows|;
    while n > 0
      invariant n <= |rows| && |keep| == |rows|
      invariant kept == KeptCount(keep, n) && keptSize == KeptSize(rows, keep, n) <= SizeFrom(rows, n)
      invariant forall i :: 0 <= i < n ==> keep[i]
      invariant Picked(rows, keep, ItemsCap(maxItems), SizeCap(maxSize), n)
    {
      var i := n - 1;
      SizeFromShrinks(rows, 0, i);
      var nextSize := SaturatingAdd(keptSize, |rows[i]|);
      if kept < ItemsCap(maxItems) && nextSize <= SizeCap(maxSize) {
        kept := kept + 1;
        keptSize := nextSize;
      } else {
        Dropping(rows, keep, i);
        keep := keep[i := false];
      }
      n := i;
    }
    CapsMean(rows, keep, maxItems, maxSize);
  }

  /** Each row is kept exactly if, beside the newer ones kept, it breaches neither cap;
      a negative one is never breached. */
  ghost predicate KeepsWhatFits(rows: seq<Snapshot>, keep: seq<bool>, maxItems: int, maxSize: int)
    requires |rows| == |keep|
  {
    forall i {:trigger keep[i]} :: 0 <= i < |rows| ==>
      (keep[i] <==> && (maxItems >= 0 ==> KeptCount(keep, i + 1) + 1 <= maxItems)
                    && (maxSize >= 0 ==> KeptSize(rows, keep, i + 1) + |rows[i]| <= maxSize))
  }

  lemma CapsMean(rows: seq<Snapshot>, keep: seq<bool>, maxItems: int, maxSize: int)
    requires |rows| == |keep| && |rows| < I32_MAX && SizeFrom(rows, 0) <= I64_MAX
    requires NewestFirst(rows, keep, ItemsCap(maxItems), SizeCap(maxSize))
    ensures KeepsWhatFits(rows, keep, maxItems, maxSize)
  {
    forall i | 0 <= i < |rows|
      ensures keep[i] <==> && (maxItems >= 0 ==> KeptCount(keep, i + 1) + 1 <= maxItems)
                           && (maxSize >= 0 ==> KeptSize(rows, keep, i + 1) + |rows[i]| <= maxSize)
    {
      KeptWithin(rows, keep, i + 1);
      SizeFromShrinks(rows, 0, i);
      assert keep[i] <==> KeptCount(keep, i + 1) < ItemsCap(maxItems) && KeptSize(rows, keep, i + 1) + |rows[i]| <= SizeCap(maxSize);
    }
  }

  lemma {:induction false} KeptWithin(rows: seq<Snapshot>, keep: seq<bool>, i: nat)
    requires |rows| == |keep| && i <= |rows|
    ensures KeptCount(keep, i) <= |rows| - i && KeptSize(rows, keep, i) <= SizeFrom(rows, i)
    decreases |rows| - i
  {
    if i < |rows| {
      KeptWithin(rows, keep, i + 1);
    }
  }

  /** Dropping a row does not change what comes after it. */
  lemma {:induction false} SameTail(rows: seq<Snapshot>, keep: seq<bool>, i: nat, k: nat)
    requires |rows| == |keep| && i < k <= |rows|
    ensures KeptCount(keep[i := false], k) == KeptCount(keep, k)
    ensures KeptSize(rows, keep[i := false], k) == KeptSize(rows, keep, k)
    decreases |rows| - k
  {
    if k < |rows| {
      SameTail(rows, keep, i, k + 1);
    }
  }

  lemma Dropping(rows: seq<Snapshot>, keep: seq<bool>, i: nat)
    requires |rows| == |keep| && i < |rows|
    ensures forall k :: i < k <= |rows| ==>
      KeptCount(keep[i := false], k) == KeptCount(keep, k) && KeptSize(rows, keep[i := false], k) == KeptSize(rows, keep, k)
  {
    forall k | i < k <= |rows|
      ensures KeptCount(keep[i := false], k) == KeptCount(keep, k) && KeptSize(rows, keep[i := false], k) == KeptSize(rows, keep, k)
    {
      SameTail(rows, keep, i, k);
    }
  }

  // ----- what the survivors are

  /** Survivors stay within both caps. */
  lemma {:induction false} WithinCaps(rows: seq<Snapshot>, keep: seq<bool>, items: int, size: int, i: nat)
    requires |rows| == |keep| && NewestFirst(rows, keep, items, size) && items >= 0 && size >= 0 && i <= |rows|
    ensures 0 <= KeptCount(keep, i) <= items && 0 <= KeptSize(rows, keep, i) <= size
    decreases |rows| - i
  {
    if i < |rows| {
      WithinCaps(rows, keep, items, size, i + 1);
    }
  }

  /** No dropped row could be added back: with it, the kept rows breach a cap. */
  lemma {:induction false} DroppedDoNotFit(rows: seq<Snapshot>, keep: seq<bool>, items: int, size: int, i: nat)
    requires |rows| == |keep| && NewestFirst(rows, keep, items, size) && items >= 0 && size >= 0
    requires i < |rows| && !keep[i]
    ensures KeptCount(keep[i := true], 0) > items || KeptSize(rows, keep[i := true], 0) > size
  {
    AddedBack(rows, keep, i, 0);
    TailIsLess(rows, keep, 0, i + 1);
  }

  lemma {:induction false} AddedBack(rows: seq<Snapshot>, keep: seq<bool>, i: nat, k: nat)
    requires |rows| == |keep| && k <= |rows| && i < |rows| && !keep[i]
    ensures KeptCount(keep[i := true], k) == KeptCount(keep, k) + if k <= i then 1 else 0
    ensures KeptSize(rows, keep[i := true], k) == KeptSize(rows, keep, k) + if k <= i then |rows[i]| else 0
    decreases |rows| - k
  {
    if k < |rows| {
      AddedBack(rows, keep, i, k + 1);
    }
  }

  lemma {:induction false} TailIsLess(rows: seq<Snapshot>, keep: seq<bool>, i: nat, k: nat)
    requires |rows| == |keep| && i <= k <= |rows|
    ensures KeptCount(keep, k) <= KeptCount(keep, i) && KeptSize(rows, keep, k) <= KeptSize(rows, keep, i)
    decreases k - i
  {
    if i < k {
      TailIsLess(rows, keep, i + 1, k);
    }
  }

  /** The survivors are a run of the newest rows. */
  ghost predicate IsSuffix(keep: seq<bool>) {
    forall i, j :: 0 <= i < j < |keep| && keep[i] ==> keep[j]
  }

  /** With no binding size cap the survivors are exactly the newest rows, as many
      as the item cap allows. */
  lemma NewestWithoutSizeCap(rows: seq<Snapshot>, keep: seq<bool>, items: int, size: int)
    requires |rows| == |keep| && NewestFirst(rows, keep, items, size) && items >= 0
    requires KeptSize(rows, seq(|rows|, i => true), 0) <= size
    ensures forall i :: 0 <= i < |rows| ==> (keep[i] <==> |rows| - i <= items)
    ensures IsSuffix(keep)
  {
    forall i | 0 <= i < |rows| ensures keep[i] <==> |rows| - i <= items {
      CountsFromEnd(rows, keep, items, size, i);
    }
  }

  lemma {:induction false} CountsFromEnd(rows: seq<Snapshot>, keep: seq<bool>, items: int, size: int, i: nat)
    requires |rows| == |keep| && NewestFirst(rows, keep, items, size) && items >= 0 && i <= |rows|
    requires KeptSize(rows, seq(|rows|, k => true), 0) <= size
    ensures KeptCount(keep, i) == if |rows| - i <= items then |rows| - i else items
    ensures i < |rows| ==> (keep[i] <==> |rows| - i <= items)
    decreases |rows| - i
  {
    if i < |rows| {
      CountsFromEnd(rows, keep, items, size, i + 1);
      var all := seq(|rows|, k => true);
      KeptLess(rows, keep, all, i + 1);
      TailIsLess(rows, all, 0, i);
      assert all[i];
    }
  }

  lemma {:induction false} KeptLess(rows: seq<Snapshot>, keep: seq<bool>, all: seq<bool>, i: nat)
    requires |rows| == |keep| == |all| && i <= |rows| && forall k :: 0 <= k < |all| ==> all[k]
    ensures KeptSize(rows, keep, i) <= KeptSize(rows, all, i)
    decreases |rows| - i
  {
    if i < |rows| {
      KeptLess(rows, keep, all, i + 1);
    }
  }

  /** A walk has one answer: two masks that both keep newest-first are equal. */
  lemma {:induction false} PickIsUnique(rows: seq<Snapshot>, a: seq<bool>, b: seq<bool>, items: int, size: int, i: nat)
    requires |rows| == |a| == |b| && i <= |rows|
    requires NewestFirst(rows, a, items, size) && NewestFirst(rows, b, items, size)
    ensures a[i..] == b[i..] && KeptCount(a, i) == KeptCount(b, i) && KeptSize(rows, a, i) == KeptSize(rows, b, i)
    decreases |rows| - i
  {
    if i < |rows| {
      PickIsUnique(rows, a, b, items, size, i + 1);
      assert a[i..] == [a[i]] + a[i + 1..] && b[i..] == [b[i]] + b[i + 1..];
    }
  }

  function SizeFrom(rows: seq<Snapshot>, n: nat): int
    requires n <= |rows|
    decreases |rows| - n
  {
    if n == |rows| then 0 else |rows[n]| + SizeFrom(rows, n + 1)
  }

  /** The rows from `n` on fit under both caps, and no older row fits beside them. */
  ghost predicate CleanCut(rows: seq<Snapshot>, items: int, size: int, n: nat) {
    && n <= |rows| && |rows| - n <= items && SizeFrom(rows, n) <= size
    && (|rows| - n < items ==> forall i :: 0 <= i < n ==> |rows[i]| + SizeFrom(rows, n) > size)
  }

  function FromOn(length: nat, n: nat): (mask: seq<bool>)
    ensures |mask| == length && forall i :: 0 <= i < length ==> (mask[i] <==> n <= i)
  {
    seq(length, i => n <= i)
  }

  lemma {:induction false} FromOnTotals(rows: seq<Snapshot>, n: nat, k: nat)
    requires n <= |rows| && k <= |rows|
    ensures KeptCount(FromOn(|rows|, n), k) == if k <= n then |rows| - n else |rows| - k
    ensures KeptSize(rows, FromOn(|rows|, n), k) == if k <= n then SizeFrom(rows, n) else SizeFrom(rows, k)
    decreases |rows| - k
  {
    if k < |rows| {
      FromOnTotals(rows, n, k + 1);
    }
  }

  lemma {:induction false} SizeFromShrinks(rows: seq<Snapshot>, n: nat, k: nat)
    requires n <= k <= |rows|
    ensures SizeFrom(rows, k) <= SizeFrom(rows, n)
    decreases k - n
  {
    if n < k {
      SizeFromShrinks(rows, n + 1, k);
    }
  }

  lemma CutIsPicked(rows: seq<Snapshot>, items: int, size: int, n: nat)
    requires CleanCut(rows, items, size, n)
    ensures NewestFirst(rows, FromOn(|rows|, n), items, size)
  {
    var mask := FromOn(|rows|, n);
    forall i | 0 <= i < |rows|
      ensures mask[i] <==> KeptCount(mask, i + 1) < items && KeptSize(rows, mask, i + 1) + |rows[i]| <= size
    {
      FromOnTotals(rows, n, i + 1);
      if n <= i {
        SizeFromShrinks(rows, n, i);
      }
    }
  }

  /** The survivors are exactly the newest rows if and only if the snapshots allow
      a clean cut: the size cap never drops one and then keeps an older one. */
  lemma SuffixExactly(rows: seq<Snapshot>, keep: seq<bool>, items: int, size: int)
    requires |rows| == |keep| && NewestFirst(rows, keep, items, size) && items >= 0 && size >= 0
    ensures IsSuffix(keep) <==> exists n :: CleanCut(rows, items, size, n)
  {
    if n :| CleanCut(rows, items, size, n) {
      CutIsPicked(rows, items, size, n);
      PickIsUnique(rows, keep, FromOn(|rows|, n), items, size, 0);
      assert keep == keep[0..] && FromOn(|rows|, n) == FromOn(|rows|, n)[0..];
    }
    if IsSuffix(keep) {
      var n := FirstKept(keep);
      assert keep == FromOn(|rows|, n);
      FromOnTotals(rows, n, 0);
      FromOnTotals(rows, n, n);
      WithinCaps(rows, keep, items, size, 0);
      forall i | 0 <= i < n && |rows| - n < items ensures |rows[i]| + SizeFrom(rows, n) > size {
        FromOnTotals(rows, n, i + 1);
      }
      assert CleanCut(rows, items, size, n);
    }
  }

  lemma FirstKept(keep: seq<bool>) returns (n: nat)
    ensures n <= |keep| && (forall i :: 0 <= i < n ==> !keep[i]) && (n < |keep| ==> keep[n])
  {
    n := 0;
    while n < |keep| && !keep[n]
      invariant n <= |keep| && forall i :: 0 <= i < n ==> !keep[i]
    {
      n := n + 1;
    }
  }

  /** One large recent snapshot is dropped and an older small one survives it. */
  lemma SizeCapKeepsOlder()
    ensures NewestFirst(["a", "bbb", "c"], [true, false, true], 10, 2)
    ensures !IsSuffix([true, false, true])
  {
    var rows: seq<Snapshot>, keep := ["a", "bbb", "c"], [true, false, true];
    assert KeptCount(keep, 3) == 0 && KeptSize(rows, keep, 3) == 0;
    assert KeptCount(keep, 2) == 1 && KeptSize(rows, keep, 2) == 1;
    assert KeptCount(keep, 1) == 1 && KeptSize(rows, keep, 1) == 1;
    assert keep[0] && !keep[1];
  }

  // ----- the table

  ghost predicate IsMin(m: int, s: set<int>) {
    m in s && forall x :: x in s ==> m <= x
  }

  lemma {:induction false} MinExists(s: set<int>, x: int)
    requires x in s
    ensures exists m :: IsMin(m, s)
    decreases s
  {
    if y :| y in s && y < x {
      var rest := s - {x};
      MinExists(rest, y);
      var m :| IsMin(m, rest);
      assert y in rest && forall z :: z in s ==> z == x || z in rest;
      assert IsMin(m, s);
    } else {
      assert IsMin(x, s);
    }
  }

  /** The keys in ascending order. */
  ghost function SortedKeys(s: set<int>): seq<int> {
    if exists x :: x in s then
      var x :| x in s;
      MinExists(s, x);
      var m :| IsMin(m, s);
      [m] + SortedKeys(s - {m})
    else []
  }

  ghost predicate Ascending(keys: seq<int>) {
    forall i, j :: 0 <= i < j < |keys| ==> keys[i] < keys[j]
  }

  lemma {:induction false} SortedKeysMeans(s: set<int>)
    ensures Ascending(SortedKeys(s)) && forall x :: x in SortedKeys(s) <==> x in s
  {
    if x :| x in s {
      MinExists(s, x);
      var m :| SortedKeys(s) == [m] + SortedKeys(s - {m}) && IsMin(m, s);
      SortedKeysMeans(s - {m});
      var rest := SortedKeys(s - {m});
      forall j | 0 <= j < |rest| ensures m < rest[j] {
        assert rest[j] in rest;
      }
    }
  }

  lemma {:induction false} SortedUnique(a: seq<int>, b: seq<int>)
    requires Ascending(a) && Ascending(b) && forall x :: x in a <==> x in b
    ensures a == b
  {
    var first := if a != [] then a[0] else if b != [] then b[0] else 0;
    assert first in a <==> first in b;
    if a != [] && b != [] {
      assert a[0] in b && b[0] in a;
      forall x ensures x in a[1..] <==> x in b[1..] {
        assert x in a[1..] ==> x in a && x != a[0];
        assert x in b[1..] ==> x in b && x != b[0];
        assert x in a && x != a[0] ==> x in a[1..];
        assert x in b && x != b[0] ==> x in b[1..];
      }
      SortedUnique(a[1..], b[1..]);
      assert a == [a[0]] + a[1..] && b == [b[0]] + b[1..];
    }
  }

  /** One entry's history rows by index, and the snapshots handed to the
      quota-trim tombstone pass. */
  class HistoryTable {
    var rows: map<int, Snapshot>
    var tombstoned: seq<Snapshot>

    constructor ()
      ensures rows == map[] && tombstoned == []
    {
      rows, tombstoned := map[], [];
    }

    /** The snapshots, oldest first. */
    ghost function Snapshots(): seq<Snapshot>
      reads this
    {
      Listed(rows, SortedKeys(rows.Keys))
    }

    /** Change one row's key; the new key must be free. */
    method Renumber(from: int, to: int)
      requires from in rows && to !in rows
      modifies this`rows
      ensures rows == (old(rows) - {from})[to := old(rows)[from]]
    {
      rows := (rows - {from})[to := rows[from]];
    }
  }

  function Listed(rows: map<int, Snapshot>, keys: seq<int>): seq<Snapshot> {
    seq(|keys|, i requires 0 <= i < |keys| => if keys[i] in rows then rows[keys[i]] else "")
  }

  /** Rows numbered 0, 1, 2, ... */
  ghost function DenseRows(s: seq<Snapshot>): map<int, Snapshot> {
    map i | 0 <= i < |s| :: s[i]
  }

  /** Select the rows ordered by index. */
  method LoadRows(rows: map<int, Snapshot>) returns (keys: seq<int>)
    ensures keys == SortedKeys(rows.Keys)
  {
    keys := [];
    var rest := rows.Keys;
    while exists x :: x in rest
      decreases rest
      invariant rest <= rows.Keys
      invariant Ascending(keys) && (forall x :: x in keys <==> x in rows.Keys - rest)
      invariant forall x, y :: x in keys && y in rest ==> x < y
    {
      var x :| x in rest;
      MinExists(rest, x);
      var least :| least in rest && forall x :: x in rest ==> least <= x;
      assert forall i :: 0 <= i < |keys| ==> keys[i] in keys;
      keys := keys + [least];
      rest := rest - {least};
    }
    SortedKeysMeans(rows.Keys);
    SortedUnique(keys, SortedKeys(rows.Keys));
  }

  // ----- pruning

  lemma {:induction false} UnkeptLength<T, U>(a: seq<T>, b: seq<U>, keep: seq<bool>)
    requires |a| == |b| == |keep|
    ensures |Unkept(a, keep)| == |Unkept(b, keep)|
  {
    if a != [] {
      var n := |a| - 1;
      UnkeptLength(a[..n], b[..n], keep[..n]);
    }
  }

  /** Survivors keep their order: `Kept` commutes with looking rows up. */
  lemma {:induction false} KeptListed(rows: map<int, Snapshot>, keys: seq<int>, keep: seq<bool>)
    requires |keys| == |keep|
    ensures Kept(Listed(rows, keys), keep) == Listed(rows, Kept(keys, keep))
    ensures Unkept(Listed(rows, keys), keep) == Listed(rows, Unkept(keys, keep))
  {
    if keys != [] {
      var n := |keys| - 1;
      KeptListed(rows, keys[..n], keep[..n]);
      assert Listed(rows, keys)[..n] == Listed(rows, keys[..n]);
      assert Kept(keys, keep) == Kept(keys[..n], keep[..n]) + (if keep[n] then [keys[n]] else []);
      assert Unkept(keys, keep) == Unkept(keys[..n], keep[..n]) + (if keep[n] then [] else [keys[n]]);
    }
  }

  lemma {:induction false} KeptMembers(keys: seq<int>, keep: seq<bool>)
    requires |keys| == |keep| && Ascending(keys)
    ensures Ascending(Kept(keys, keep))
    ensures forall x :: x in keys <==> x in Kept(keys, keep) || x in Unkept(keys, keep)
    ensures forall x :: !(x in Kept(keys, keep) && x in Unkept(keys, keep))
  {
    if keys != [] {
      var n := |keys| - 1;
      KeptMembers(keys[..n], keep[..n]);
      assert keys == keys[..n] + [keys[n]];
      assert forall x :: x in keys[..n] ==> x < keys[n];
      var front := Kept(keys[..n], keep[..n]);
      assert forall i :: 0 <= i < |front| ==> front[i] in front;
    }
  }

  /** Indices a table of that many rows can have without reaching the offset. */
  ghost predicate BelowShift(rows: map<int, Snapshot>) {
    forall k :: k in rows ==> 0 <= k < SHIFT
  }

  /** Delete the rows at `keys`, one by one. */
  method DeleteRows(h: HistoryTable, keys: seq<int>)
    modifies h`rows
    ensures h.rows == old(h.rows) - (set k | k in keys)
  {
    for i := 0 to |keys|
      invariant h.rows == old(h.rows) - (set k | k in keys[..i])
    {
      assert keys[..i + 1] == keys[..i] + [keys[i]];
      h.rows := h.rows - {keys[i]};
    }
    assert keys[..|keys|] == keys;
  }

  /** The table while survivors move back down: the first `n` are at 0..n, the
      others still at their old index plus the offset. */
  ghost predicate Repacked(rows: map<int, Snapshot>, kept: seq<Snapshot>, keys: seq<int>, n: nat)
    requires n <= |keys| == |kept|
  {
    && (forall i: int :: 0 <= i < n ==> i in rows && rows[i] == kept[i])
    && (forall i: int {:trigger keys[i]} :: n <= i < |keys| ==> Up(keys[i]) in rows && rows[Up(keys[i])] == kept[i])
    && (forall k: int :: k in rows ==> 0 <= k < n || exists i: int :: n <= i < |keys| && k == Up(keys[i]))
  }

  function Up(k: int): (r: int) {
    k + SHIFT
  }

  /** Renumber the rows at `keys` to 0..N in order, by way of the offset. Every
      single renumbering finds its target free. */
  method Repack(h: HistoryTable, keys: seq<int>)
    requires Ascending(keys) && BelowShift(h.rows) && forall k :: k in keys <==> k in h.rows
    modifies h`rows
    ensures h.rows == DenseRows(Listed(old(h.rows), keys))
  {
    ghost var before := h.rows;
    ghost var kept := Listed(before, keys);
    assert Indices(keys) by {
      forall i | 0 <= i < |keys| ensures 0 <= keys[i] < SHIFT {
        assert keys[i] in keys;
      }
    }
    h.rows := map x | x in h.rows :: Up(x) := h.rows[x];
    ShiftedUp(before, keys);
    for n := 0 to |keys|
      invariant Repacked(h.rows, kept, keys, n)
    {
      NextIsFree(h.rows, kept, keys, n);
      NextStep(h.rows, kept, keys, n);
      h.Renumber(Up(keys[n]), n);
    }
    FullyRepacked(h.rows, kept, keys);
  }

  ghost predicate Indices(keys: seq<int>) {
    Ascending(keys) && forall i :: 0 <= i < |keys| ==> 0 <= keys[i] < SHIFT
  }

  lemma {:induction false} PositionBelow(keys: seq<int>, n: nat)
    requires Indices(keys) && n < |keys|
    ensures n <= keys[n] < SHIFT
  {
    if n > 0 {
      PositionBelow(keys, n - 1);
    }
  }

  lemma NextIsFree(rows: map<int, Snapshot>, kept: seq<Snapshot>, keys: seq<int>, n: nat)
    requires n < |keys| == |kept| && Indices(keys) && Repacked(rows, kept, keys, n)
    ensures Up(keys[n]) in rows && n !in rows
  {
    PositionBelow(keys, n);
  }

  lemma NextStep(rows: map<int, Snapshot>, kept: seq<Snapshot>, keys: seq<int>, n: nat)
    requires n < |keys| == |kept| && Indices(keys) && Repacked(rows, kept, keys, n) && Up(keys[n]) in rows
    ensures Repacked((rows - {Up(keys[n])})[n := rows[Up(keys[n])]], kept, keys, n + 1)
  {
    PositionBelow(keys, n);
    var after := (rows - {Up(keys[n])})[n := rows[Up(keys[n])]];
    forall i: int | n + 1 <= i < |keys| ensures Up(keys[i]) in after && after[Up(keys[i])] == kept[i] {
      assert keys[n] < keys[i];
    }
    forall i: int | 0 <= i < n + 1 ensures i in after && after[i] == kept[i] {
    }
    forall k: int | k in after ensures 0 <= k < n + 1 || exists i: int :: n + 1 <= i < |keys| && k == Up(keys[i]) {
      if k != n {
        assert k in rows;
      }
    }
  }

  lemma ShiftedUp(before: map<int, Snapshot>, keys: seq<int>)
    requires forall k :: k in keys <==> k in before
    ensures Repacked(map x | x in before :: Up(x) := before[x], Listed(before, keys), keys, 0)
  {
    var rows := map x | x in before :: Up(x) := before[x];
    forall i: int | 0 <= i < |keys| ensures Up(keys[i]) in rows && rows[Up(keys[i])] == before[keys[i]] {
      assert keys[i] in keys;
    }
    forall k: int | k in rows ensures exists i: int :: 0 <= i < |keys| && k == Up(keys[i]) {
      var x :| x in before && k == Up(x);
      assert x in keys;
    }
    forall i | 0 <= i < |keys| ensures keys[i] in before { assert keys[i] in keys; }
  }

  lemma FullyRepacked(rows: map<int, Snapshot>, kept: seq<Snapshot>, keys: seq<int>)
    requires |kept| == |keys| && Repacked(rows, kept, keys, |keys|)
    ensures rows == DenseRows(kept)
  {
    assert forall k :: k in rows <==> k in DenseRows(kept);
  }

  /** Prune to both caps. Every snapshot that goes is handed to the tombstone pass
      before any row is deleted; the survivors are renumbered 0..N in their order. */
  method PruneHistory(h: HistoryTable, maxItems: int, maxSize: int) returns (keep: seq<bool>)
    requires BelowShift(h.rows) && |h.Snapshots()| < I32_MAX && SizeFrom(h.Snapshots(), 0) <= I64_MAX
    modifies h
    ensures |keep| == |old(h.Snapshots())|
    ensures NewestFirst(old(h.Snapshots()), keep, ItemsCap(maxItems), SizeCap(maxSize))
    ensures KeepsWhatFits(old(h.Snapshots()), keep, maxItems, maxSize)
    ensures h.tombstoned == old(h.tombstoned) + Unkept(old(h.Snapshots()), keep)
    ensures h.rows == if Unkept(old(h.Snapshots()), keep) == [] then old(h.rows)
                      else DenseRows(Kept(old(h.Snapshots()), keep))
    ensures h.Snapshots() == Kept(old(h.Snapshots()), keep)
  {
    var keys := LoadRows(h.rows);
    var snapshots := Listed(h.rows, keys);
    keep := PickSurvivors(snapshots, maxItems, maxSize);
    UnkeptLength(snapshots, keys, keep);
    NoneDropped(snapshots, keep);
    if Unkept(keys, keep) == [] {
      return;
    }
    h.tombstoned := h.tombstoned + Unkept(snapshots, keep);
    DropRows(h, keys, keep);
    DenseSnapshots(Kept(snapshots, keep));
  }

  /** Delete the rows not kept and renumber the others. */
  method DropRows(h: HistoryTable, keys: seq<int>, keep: seq<bool>)
    requires keys == SortedKeys(h.rows.Keys) && |keep| == |keys| && BelowShift(h.rows)
    modifies h`rows
    ensures h.rows == DenseRows(Kept(Listed(old(h.rows), keys), keep))
  {
    SortedKeysMeans(h.rows.Keys);
    KeptListed(h.rows, keys, keep);
    KeptMembers(keys, keep);
    ghost var before := h.rows;
    DeleteRows(h, Unkept(keys, keep));
    assert Listed(h.rows, Kept(keys, keep)) == Listed(before, Kept(keys, keep));
    Repack(h, Kept(keys, keep));
  }

  /** The index after the largest one, 0 for an empty table. */
  function NextIndex(keys: seq<int>): int {
    if keys == [] then 0 else keys[|keys| - 1] + 1
  }

  ghost predicate IsNextIndex(rows: map<int, Snapshot>, next: int) {
    && (rows == map[] ==> next == 0)
    && (rows != map[] ==> next - 1 in rows && forall k :: k in rows ==> k < next)
  }

  lemma AfterLast(rows: map<int, Snapshot>, keys: seq<int>)
    requires Ascending(keys) && forall k :: k in keys <==> k in rows
    ensures IsNextIndex(rows, NextIndex(keys))
  {
    if keys == [] {
      assert forall k :: k !in rows;
    } else {
      assert keys[|keys| - 1] in keys;
      forall k | k in rows ensures k <= keys[|keys| - 1] {
        var i :| 0 <= i < |keys| && keys[i] == k;
      }
    }
  }

  lemma AppendedLast(rows: map<int, Snapshot>, next: int, snap: Snapshot)
    requires forall k :: k in rows ==> k < next
    ensures SortedKeys(rows[next := snap].Keys) == SortedKeys(rows.Keys) + [next]
    ensures Listed(rows[next := snap], SortedKeys(rows.Keys) + [next]) == Listed(rows, SortedKeys(rows.Keys)) + [snap]
  {
    var keys := SortedKeys(rows.Keys);
    SortedKeysMeans(rows.Keys);
    SortedKeysMeans(rows[next := snap].Keys);
    forall i | 0 <= i < |keys| ensures keys[i] in rows && keys[i] != next {
      assert keys[i] in keys;
    }
    SortedUnique(SortedKeys(rows[next := snap].Keys), keys + [next]);
  }

  /** Insert at the next index. */
  method AppendSnapshot(h: HistoryTable, snap: Snapshot)
    requires BelowShift(h.rows) && SHIFT - 1 !in h.rows
    modifies h`rows
    ensures BelowShift(h.rows) && h.Snapshots() == old(h.Snapshots()) + [snap]
    ensures exists next :: IsNextIndex(old(h.rows), next) && h.rows == old(h.rows)[next := snap]
  {
    var keys := LoadRows(h.rows);
    SortedKeysMeans(h.rows.Keys);
    forall i | 0 <= i < |keys| ensures keys[i] in h.rows {
      assert keys[i] in keys;
    }
    var next := NextIndex(keys);
    AfterLast(h.rows, keys);
    AppendedLast(h.rows, next, snap);
    h.rows := h.rows[next := snap];
  }

  /** Append the pre-edit version after the newest row, then prune: the version
      just archived counts as the newest. */
  method ArchiveSnapshot(h: HistoryTable, snap: Snapshot, maxItems: int, maxSize: int) returns (keep: seq<bool>)
    requires BelowShift(h.rows) && SHIFT - 1 !in h.rows
    requires |h.Snapshots()| + 1 < I32_MAX && SizeFrom(h.Snapshots() + [snap], 0) <= I64_MAX
    modifies h
    ensures |keep| == |old(h.Snapshots())| + 1
    ensures NewestFirst(old(h.Snapshots()) + [snap], keep, ItemsCap(maxItems), SizeCap(maxSize))
    ensures KeepsWhatFits(old(h.Snapshots()) + [snap], keep, maxItems, maxSize)
    ensures h.tombstoned == old(h.tombstoned) + Unkept(old(h.Snapshots()) + [snap], keep)
    ensures h.Snapshots() == Kept(old(h.Snapshots()) + [snap], keep)
  {
    AppendSnapshot(h, snap);
    keep := PruneHistory(h, maxItems, maxSize);
  }

  lemma {:induction false} NoneDropped<T>(rows: seq<T>, keep: seq<bool>)
    requires |rows| == |keep|
    ensures |Unkept(rows, keep)| == 0 ==> Kept(rows, keep) == rows
  {
    if rows != [] {
      var n := |rows| - 1;
      NoneDropped(rows[..n], keep[..n]);
      assert rows == rows[..n] + [rows[n]];
    }
  }

  /** A dense table lists back as the sequence it was built from. */
  lemma DenseSnapshots(s: seq<Snapshot>)
    ensures Listed(DenseRows(s), SortedKeys(DenseRows(s).Keys)) == s
  {
    var keys := seq(|s|, i => i);
    SortedKeysMeans(DenseRows(s).Keys);
    forall x ensures x in keys <==> x in DenseRows(s).Keys {
      if 0 <= x < |s| {
        assert keys[x] == x;
      }
    }
    SortedUnique(SortedKeys(DenseRows(s).Keys), keys);
  }
}
