/** Comparison results and the orders the reconciliation rules are stated in. */
module Order {

  datatype Option<+T> = None | Some(value: T)

  datatype Ordering = Less | Equal | Greater

  /** The identity of a group or an entry. Ids are compared as text in the
      source; the hyphenated lower-case form sorts as the number it spells. */
  type Uuid = nat

  /** Compare by `first`, and by `second` only on a tie. */
  function Then(first: Ordering, second: Ordering): Ordering {
    if first == Equal then second else first
  }

  function Flip(o: Ordering): Ordering {
    match o
    case Less => Greater
    case Equal => Equal
    case Greater => Less
  }

  function CompareInts(a: int, b: int): Ordering {
    if a < b then Less else if a == b then Equal else Greater
  }

  /** `None` sorts below every `Some`. */
  function CompareOptionInts(a: Option<int>, b: Option<int>): Ordering {
    match (a, b)
    case (None, None) => Equal
    case (None, Some(_)) => Less
    case (Some(_), None) => Greater
    case (Some(x), Some(y)) => CompareInts(x, y)
  }

  function CompareStrings(a: string, b: string): Ordering {
    if a == [] && b == [] then Equal
    else if a == [] then Less
    else if b == [] then Greater
    else Then(CompareInts(a[0] as int, b[0] as int), CompareStrings(a[1..], b[1..]))
  }

  /** Text comparison is total: exactly one side wins unless the texts are equal,
      and both readers agree who. */
  lemma {:induction false} CompareStringsTotal(a: string, b: string)
    ensures CompareStrings(a, b) == Equal <==> a == b
    ensures CompareStrings(b, a) == Flip(CompareStrings(a, b))
  {
    if a != [] && b != [] {
      CompareStringsTotal(a[1..], b[1..]);
      assert a == [a[0]] + a[1..] && b == [b[0]] + b[1..];
    }
  }

  lemma {:induction false} CompareStringsTransitive(a: string, b: string, c: string)
    requires CompareStrings(a, b) != Greater && CompareStrings(b, c) != Greater
    ensures CompareStrings(a, c) != Greater
  {
    if a != [] && b != [] && c != [] {
      CompareStringsTotal(a[1..], b[1..]);
      if a[0] == b[0] == c[0] {
        CompareStringsTransitive(a[1..], b[1..], c[1..]);
      }
    }
  }

  /** `a` comes before `b` in a dictionary: it ends, or has the smaller character,
      where they part. */
  ghost predicate TextBelow(a: string, b: string) {
    exists k :: PartAt(a, b, k)
  }

  ghost predicate PartAt(a: string, b: string, k: int) {
    0 <= k < |b| && k <= |a| && a[..k] == b[..k] && (k < |a| ==> a[k] < b[k])
  }

  lemma {:induction false} CompareStringsMeans(a: string, b: string)
    ensures CompareStrings(a, b) == Less <==> TextBelow(a, b)
    ensures CompareStrings(a, b) == Greater <==> TextBelow(b, a)
  {
    CompareStringsTotal(a, b);
    LessIsTextBelow(a, b);
    LessIsTextBelow(b, a);
  }

  lemma {:induction false} LessIsTextBelow(a: string, b: string)
    ensures CompareStrings(a, b) == Less <==> TextBelow(a, b)
  {
    if a == [] || b == [] {
      if b != [] {
        assert PartAt(a, b, 0);
      }
    } else if a[0] != b[0] {
      if a[0] < b[0] {
        assert PartAt(a, b, 0);
      }
      forall k | PartAt(a, b, k) ensures a[0] < b[0] {
        assert k > 0 ==> a[..k][0] == b[..k][0];
      }
    } else {
      LessIsTextBelow(a[1..], b[1..]);
      if k :| PartAt(a[1..], b[1..], k) {
        assert a[..k + 1] == [a[0]] + a[1..][..k] && b[..k + 1] == [b[0]] + b[1..][..k];
        assert PartAt(a, b, k + 1);
      }
      if k :| PartAt(a, b, k) {
        assert k > 0;
        assert a[..k][1..] == a[1..][..k - 1] && b[..k][1..] == b[1..][..k - 1];
        assert PartAt(a[1..], b[1..], k - 1);
      }
    }
  }

  /** Sub-second precision dropped toward negative infinity. */
  function FloorToSecond(ms: int): int {
    ms - ms % 1000
  }

  function FloorOption(ms: Option<int>): Option<int> {
    match ms
    case None => None
    case Some(t) => Some(FloorToSecond(t))
  }

  /** The start of the second. */
  lemma FloorMeans(ms: int)
    ensures FloorToSecond(ms) <= ms < FloorToSecond(ms) + 1000 && FloorToSecond(ms) == 1000 * (ms / 1000)
  {
  }

  lemma FloorIdempotent(ms: Option<int>)
    ensures FloorOption(FloorOption(ms)) == FloorOption(ms)
  {
  }
}
