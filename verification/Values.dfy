/** The VALUE cells that every container of the library stores, and the comparators
    that order them. */
module Values {

  /** A VALUE is seen by a container only through its comparators, so it is modelled by
      what they see: `key` is its rank under `compare`, `sub` its rank under the optional
      `compare2`, and `data` is everything both comparators ignore. `RankAgrees` below
      shows that every total preorder on a finite universe has such a rank. */
  datatype Value = Value(key: int, sub: int, data: int)

  const EMPTY_VALUE := Value(0, 0, 0)

  /** `compare(a, b)` of the model: negative, zero or positive. */
  function Compare(a: Value, b: Value): int {
    a.key - b.key
  }

  /** What the library asks of a COMPARE callback on the values it meets. */
  ghost predicate TotalPreorder<T(!new)>(cmp: (T, T) -> int) {
    && (forall a, b :: cmp(a, b) < 0 <==> cmp(b, a) > 0)
    && (forall a, b, c :: cmp(a, b) <= 0 && cmp(b, c) <= 0 ==> cmp(a, c) <= 0)
  }

  /** The number of values of the universe that lie strictly below `v`. */
  ghost function Rank<T(!new)>(cmp: (T, T) -> int, universe: set<T>, v: T): nat {
    |set w | w in universe && cmp(w, v) < 0|
  }

  lemma SmallerSet<T>(s: set<T>, t: set<T>)
    requires s < t
    ensures |s| < |t|
  {
    assert t == s + (t - s) && t - s != {};
  }

  /** Comparing ranks is comparing values: nothing is lost by ordering cells by an integer. */
  lemma RankAgrees<T(!new)>(cmp: (T, T) -> int, universe: set<T>, a: T, b: T)
    requires TotalPreorder(cmp)
    requires a in universe && b in universe
    ensures cmp(a, b) < 0 <==> Rank(cmp, universe, a) < Rank(cmp, universe, b)
    ensures cmp(a, b) == 0 <==> Rank(cmp, universe, a) == Rank(cmp, universe, b)
  {
    var belowA := set w | w in universe && cmp(w, a) < 0;
    var belowB := set w | w in universe && cmp(w, b) < 0;
    RankMonotone(cmp, universe, a, b);
    RankMonotone(cmp, universe, b, a);
    if cmp(a, b) == 0 {
      assert cmp(b, a) <= 0;
      assert belowA == belowB;
    }
  }

  lemma RankMonotone<T(!new)>(cmp: (T, T) -> int, universe: set<T>, a: T, b: T)
    requires TotalPreorder(cmp)
    requires a in universe && b in universe
    ensures cmp(a, b) < 0 ==> Rank(cmp, universe, a) < Rank(cmp, universe, b)
  {
    var belowA := set w | w in universe && cmp(w, a) < 0;
    var belowB := set w | w in universe && cmp(w, b) < 0;
    if cmp(a, b) < 0 {
      forall w | w in belowA
        ensures w in belowB
      {
        assert cmp(w, b) <= 0;
        assert cmp(b, w) <= 0 ==> cmp(b, a) <= 0;
      }
      assert cmp(a, a) == 0;
      assert a in belowB && a !in belowA;
      SmallerSet(belowA, belowB);
    }
  }

  // ---------------------------------------------------------------- the comparators that come with the library

  /** A `long` returned as an `int` of 32 bits. */
  function Narrow(x: int): (y: int)
    ensures -0x8000_0000 <= y < 0x8000_0000
  {
    (x + 0x8000_0000) % 0x1_0000_0000 - 0x8000_0000
  }

  /** `asc_order_int`: the difference of two `long` values, cut down to an `int`. */
  function AscOrderInt(a: int, b: int): int {
    Narrow(a - b)
  }

  predicate SameSign(x: int, y: int) {
    (x < 0 <==> y < 0) && (x > 0 <==> y > 0)
  }

  /** On the numbers from `lo` to `hi` the comparator orders as the numbers are ordered exactly if no two of them
      are further apart than an `int` can say. */
  lemma AscOrderRight(lo: int, hi: int)
    requires lo <= hi
    ensures (forall a, b :: lo <= a <= hi && lo <= b <= hi ==> SameSign(AscOrderInt(a, b), a - b))
      <==> hi - lo < 0x8000_0000
  {
    if hi - lo < 0x8000_0000 {
      forall a, b | lo <= a <= hi && lo <= b <= hi
        ensures SameSign(AscOrderInt(a, b), a - b)
      {
        assert AscOrderInt(a, b) == a - b;
      }
    } else {
      assert AscOrderInt(lo + 0x8000_0000, lo) == -0x8000_0000;
      assert !SameSign(AscOrderInt(lo + 0x8000_0000, lo), lo + 0x8000_0000 - lo);
    }
  }
}
