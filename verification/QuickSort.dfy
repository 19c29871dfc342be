/** The quick sort that partitions by moving a hole. */
module QuickSort {
  import opened Values
  import opened Sorting

  /** The array with the held value put back into the hole. */
  ghost function Filled(s: seq<Value>, hole: nat, k: Value): seq<Value>
    requires hole < |s|
  {
    s[hole := k]
  }

  /** Filling the hole from elsewhere moves it there. */
  lemma MoveHole(s: seq<Value>, i: nat, j: nat, k: Value)
    requires i < |s| && j < |s| && i != j
    ensures multiset(Filled(s[i := s[j]], j, k)) == multiset(Filled(s, i, k))
  {
    assert s[i := s[j]][j := k] == s[i := k][i := s[j]][j := k];
    assert s[i := k][j] == s[j] && s[i := k][i] == k;
  }

  /** `k` is held and the hole is at `hole`; with `k` in the hole, the range is a permutation. */
  ghost predicate Counted(s: seq<Value>, k: Value, l: nat, r: nat, hole: int, was: seq<Value>) {
    && l <= hole <= r < |s| == |was| && multiset(Filled(s[l..r + 1], hole - l, k)) == multiset(was[l..r + 1])
    && s[..l] == was[..l] && s[r + 1..] == was[r + 1..]
  }

  /** The outer parts of the range are divided. */
  ghost predicate Sides(s: seq<Value>, k: Value, l: nat, i: int, j: int, r: nat) {
    && l <= i <= j <= r < |s|
    && (forall q :: l <= q < i ==> s[q].key <= k.key)
    && (forall q :: j < q <= r ==> k.key <= s[q].key)
  }

  /** The state of a partition. */
  ghost predicate Dividing(s: seq<Value>, k: Value, l: nat, i: int, j: int, r: nat, hole: int, was: seq<Value>) {
    Sides(s, k, l, i, j, r) && Counted(s, k, l, r, hole, was)
  }

  lemma DivideStart(s: seq<Value>, l: nat, r: nat)
    requires l <= r < |s|
    ensures Dividing(s, s[l], l, l, r, r, l, s)
  {
    assert Filled(s[l..r + 1], 0, s[l]) == s[l..r + 1];
  }

  lemma SetInside(s: seq<Value>, l: nat, r: nat, at: nat, v: Value)
    requires l <= at <= r < |s|
    ensures s[at := v][l..r + 1] == s[l..r + 1][at - l := v]
    ensures s[at := v][..l] == s[..l] && s[at := v][r + 1..] == s[r + 1..]
  {
  }

  lemma CountedMove(s: seq<Value>, k: Value, l: nat, r: nat, hole: nat, from: nat, was: seq<Value>)
    requires Counted(s, k, l, r, hole, was) && l <= from <= r && hole != from
    ensures Counted(s[hole := s[from]], k, l, r, from, was)
  {
    SetInside(s, l, r, hole, s[from]);
    MoveHole(s[l..r + 1], hole - l, from - l, k);
  }

  lemma SidesMove(s: seq<Value>, k: Value, l: nat, i: nat, j: nat, r: nat, v: Value)
    requires Sides(s, k, l, i, j, r) && i < j
    ensures v.key <= k.key ==> Sides(s[i := v], k, l, i + 1, j, r)
    ensures v.key >= k.key ==> Sides(s[j := v], k, l, i, j - 1, r)
  {
  }

  /** The value at `from` goes into the hole at `hole`. */
  lemma DivideMove(s: seq<Value>, k: Value, l: nat, i: nat, j: nat, r: nat, hole: nat, from: nat, was: seq<Value>)
    requires Dividing(s, k, l, i, j, r, hole, was) && i < j && ((hole == i && from == j) || (hole == j && from == i))
    requires l <= i && j <= r < |s|
    ensures hole == i && s[from].key <= k.key ==> Dividing(s[hole := s[from]], k, l, i + 1, j, r, from, was)
    ensures hole == j && s[from].key >= k.key ==> Dividing(s[hole := s[from]], k, l, i, j - 1, r, from, was)
  {
    hide Sides, Counted;
    CountedMove(s, k, l, r, hole, from, was);
    SidesMove(s, k, l, i, j, r, s[from]);
  }

  /** Passing over a value that is on its side already. */
  lemma DivideSkip(s: seq<Value>, k: Value, l: nat, i: int, j: int, r: nat, hole: int, was: seq<Value>)
    requires Dividing(s, k, l, i, j, r, hole, was) && i < j
    ensures k.key <= s[j].key ==> Dividing(s, k, l, i, j - 1, r, hole, was)
    ensures s[i].key <= k.key ==> Dividing(s, k, l, i + 1, j, r, hole, was)
  {
    hide Filled;
  }

  lemma DivideEnd(s: seq<Value>, k: Value, l: nat, i: nat, r: nat, was: seq<Value>)
    requires Dividing(s, k, l, i, i, r, i, was)
    ensures Permuted(s[i := k], was, l, r) && Divided(s[i := k], l, i, r)
  {
    SetInside(s, l, r, i, k);
  }

  /** The loop of `_quick_sort`: `arr[i]` ends up between the smaller and the greater values. */
  method Divide(arr: array<Value>, l: nat, r: nat) returns (i: nat)
    requires l <= r < arr.Length
    modifies arr
    ensures l <= i <= r && Permuted(arr[..], old(arr[..]), l, r) && Divided(arr[..], l, i, r)
  {
    hide Dividing, Permuted, Divided;
    ghost var was := arr[..];
    var k := arr[l];
    i := l;
    var j := r;
    DivideStart(was, l, r);
    while i < j
      invariant l <= i <= j <= r && Dividing(arr[..], k, l, i, j, r, i, was)
      decreases j - i
    {
      ghost var j0 := j;
      while j > i && Compare(k, arr[j]) <= 0
        invariant i <= j <= j0 && Dividing(arr[..], k, l, i, j, r, i, was)
      {
        DivideSkip(arr[..], k, l, i, j, r, i, was);
        j := j - 1;
      }

      ghost var i0 := i;
      if j > i {
        i := FillLow(arr, k, l, i, j, r, was);
      }
      while i < j && Compare(arr[i], k) <= 0
        invariant i0 <= i <= j && (j == i0 || i0 < i) && Dividing(arr[..], k, l, i, j, r, j, was)
        decreases j - i
      {
        DivideSkip(arr[..], k, l, i, j, r, j, was);
        i := i + 1;
      }
      if i < j {
        j := FillHigh(arr, k, l, i, j, r, was);
      }
    }
    DivideEnd(arr[..], k, l, i, r, was);
    ghost var s := arr[..];
    arr[i] := k;
    assert arr[..] == s[i := k];
  }

  /** `arr[i++] = arr[j]` */
  method FillLow(arr: array<Value>, ghost k: Value, ghost l: nat, i0: nat, j: nat, ghost r: nat, ghost was: seq<Value>)
    returns (i: nat)
    requires l <= i0 < j <= r < arr.Length && Dividing(arr[..], k, l, i0, j, r, i0, was) && arr[j].key <= k.key
    modifies arr
    ensures i == i0 + 1 && Dividing(arr[..], k, l, i, j, r, j, was)
  {
    hide Dividing;
    ghost var s := arr[..];
    DivideMove(s, k, l, i0, j, r, i0, j, was);
    arr[i0] := arr[j];
    i := i0 + 1;
    assert arr[..] == s[i0 := s[j]];
  }

  /** `arr[j--] = arr[i]` */
  method FillHigh(arr: array<Value>, ghost k: Value, ghost l: nat, i: nat, j0: nat, ghost r: nat, ghost was: seq<Value>)
    returns (j: nat)
    requires l <= i < j0 <= r < arr.Length && Dividing(arr[..], k, l, i, j0, r, j0, was) && arr[i].key >= k.key
    modifies arr
    ensures j == j0 - 1 && Dividing(arr[..], k, l, i, j, r, i, was)
  {
    hide Dividing;
    ghost var s := arr[..];
    DivideMove(s, k, l, i, j0, r, j0, i, was);
    arr[j0] := arr[i];
    j := j0 - 1;
    assert arr[..] == s[j0 := s[i]];
  }

  // ---------------------------------------------------------------- the recursion

  /** `arr[l..r + 1]` has been permuted and nothing else has changed. */
  ghost predicate Permuted(s: seq<Value>, was: seq<Value>, l: int, r: int) {
    && 0 <= l <= r + 1 <= |s| == |was| && multiset(s[l..r + 1]) == multiset(was[l..r + 1])
    && s[..l] == was[..l] && s[r + 1..] == was[r + 1..]
  }

  lemma Cut(s: seq<Value>, l: nat, a: nat, b: nat, e: nat)
    requires l <= a <= b <= e <= |s|
    ensures s[l..e] == s[l..a] + s[a..b] + s[b..e]
  {
  }

  lemma SamePrefix(s: seq<Value>, t: seq<Value>, l: nat, a: nat)
    requires l <= a <= |s| == |t| && s[..a] == t[..a]
    ensures s[..l] == t[..l] && s[l..a] == t[l..a]
  {
    assert s[..a][..l] == s[..l] && t[..a][..l] == t[..l];
    assert s[..a][l..] == s[l..a] && t[..a][l..] == t[l..a];
  }

  lemma SameSuffix(s: seq<Value>, t: seq<Value>, b: nat, e: nat)
    requires b <= e <= |s| == |t| && s[b..] == t[b..]
    ensures s[e..] == t[e..] && s[b..e] == t[b..e]
  {
    assert s[b..][e - b..] == s[e..] && t[b..][e - b..] == t[e..];
    assert s[b..][..e - b] == s[b..e] && t[b..][..e - b] == t[b..e];
  }

  lemma Parts(s: seq<Value>, l: nat, a: nat, b: nat, e: nat)
    requires l <= a <= b <= e <= |s|
    ensures multiset(s[l..e]) == multiset(s[l..a]) + multiset(s[a..b]) + multiset(s[b..e])
  {
    Cut(s, l, a, b, e);
  }

  lemma PermutedMiddle(s: seq<Value>, t: seq<Value>, l: nat, a: nat, b: nat, e: nat)
    requires l <= a <= b <= e <= |s| == |t| && s[l..a] == t[l..a] && s[b..e] == t[b..e]
    requires multiset(s[a..b]) == multiset(t[a..b])
    ensures multiset(s[l..e]) == multiset(t[l..e])
  {
    Parts(s, l, a, b, e);
    Parts(t, l, a, b, e);
  }

  /** Permuting a part of a range permutes the range. */
  lemma PermutedPart(s: seq<Value>, was: seq<Value>, a: int, b: int, l: int, r: int)
    requires 0 <= l <= a && b <= r < |s| && Permuted(s, was, a, b)
    ensures Permuted(s, was, l, r)
  {
    hide *;
    PermutedParts(s, was, a, b);
    SamePrefix(s, was, l, a);
    SameSuffix(s, was, b + 1, r + 1);
    PermutedMiddle(s, was, l, a, b + 1, r + 1);
    PermutedFrom(s, was, l, r);
  }

  lemma PermutedParts(s: seq<Value>, was: seq<Value>, l: int, r: int)
    requires Permuted(s, was, l, r)
    ensures 0 <= l <= r + 1 <= |s| == |was| && multiset(s[l..r + 1]) == multiset(was[l..r + 1])
    ensures s[..l] == was[..l] && s[r + 1..] == was[r + 1..]
  {
  }

  lemma PermutedFrom(s: seq<Value>, was: seq<Value>, l: int, r: int)
    requires 0 <= l <= r + 1 <= |s| == |was| && multiset(s[l..r + 1]) == multiset(was[l..r + 1])
    requires s[..l] == was[..l] && s[r + 1..] == was[r + 1..]
    ensures Permuted(s, was, l, r)
  {
  }

  lemma PermutedTwice(s: seq<Value>, t: seq<Value>, u: seq<Value>, l: int, r: int)
    requires Permuted(s, t, l, r) && Permuted(t, u, l, r)
    ensures Permuted(s, u, l, r)
  {
  }

  ghost predicate InOrder(s: seq<Value>, l: int, r: int) {
    0 <= l <= r + 1 <= |s| && Ascending(s[l..r + 1])
  }

  /** A divided range stays divided when both sides are permuted. */
  ghost predicate Divided(s: seq<Value>, l: int, i: int, r: int) {
    && 0 <= l <= i <= r < |s|
    && (forall x :: x in s[l..i] ==> x.key <= s[i].key)
    && (forall x :: x in s[i + 1..r + 1] ==> s[i].key <= x.key)
  }

  lemma MembersKept(s: seq<Value>, t: seq<Value>, x: Value)
    requires multiset(s) == multiset(t) && x in s
    ensures x in t
  {
    assert x in multiset(s);
    assert x in multiset(t);
  }

  lemma DividedLeft(s: seq<Value>, t: seq<Value>, l: int, i: int, r: int)
    requires Divided(s, l, i, r) && Permuted(t, s, l, i - 1)
    ensures Divided(t, l, i, r) && t[i..] == s[i..]
  {
    SameSuffix(t, s, i, i + 1);
    SameSuffix(t, s, i + 1, r + 1);
    assert t[i] == t[i..][0] && s[i] == s[i..][0];
    forall x | x in t[l..i]
      ensures x.key <= t[i].key
    {
      MembersKept(t[l..i], s[l..i], x);
    }
  }

  lemma DividedRight(s: seq<Value>, t: seq<Value>, l: int, i: int, r: int)
    requires Divided(s, l, i, r) && Permuted(t, s, i + 1, r)
    ensures Divided(t, l, i, r) && t[..i + 1] == s[..i + 1]
  {
    SamePrefix(t, s, i, i + 1);
    SamePrefix(t, s, l, i);
    assert t[i] == t[..i + 1][i] && s[i] == s[..i + 1][i];
    forall x | x in t[i + 1..r + 1]
      ensures t[i].key <= x.key
    {
      MembersKept(t[i + 1..r + 1], s[i + 1..r + 1], x);
    }
  }

  /** Sorted sides around a pivot are a sorted range. */
  lemma Ascends(s: seq<Value>, l: int, i: int, r: int)
    requires Divided(s, l, i, r) && InOrder(s, l, i - 1) && InOrder(s, i + 1, r)
    ensures InOrder(s, l, r)
  {
    var a, b, t := s[l..i], s[i + 1..r + 1], s[l..r + 1];
    forall p, q | 0 <= p < q < |t|
      ensures t[p].key <= t[q].key
    {
      var m := i - l;
      assert p < m ==> t[p] == a[p] && a[p] in a;
      assert q > m ==> t[q] == b[q - m - 1] && b[q - m - 1] in b;
      assert q < m ==> t[q] == a[q];
      assert p > m ==> t[p] == b[p - m - 1];
    }
  }

  /** `_quick_sort`: both recursive ranges are shorter, and ranges of one value are not visited. */
  method QuickSortRange(arr: array<Value>, l: nat, r: nat)
    requires l <= r < arr.Length
    modifies arr
    ensures Permuted(arr[..], old(arr[..]), l, r)
    ensures InOrder(arr[..], l, r)
    decreases r - l
  {
    hide *;
    ghost var s0 := arr[..];
    var i := Divide(arr, l, r);
    ghost var s1 := arr[..];
    if l < i - 1 {
      QuickSortRange(arr, l, i - 1);
      AfterLeft(s0, s1, arr[..], l, i, r);
    } else {
      Small(s1, l, i - 1);
      AfterLeft(s0, s1, s1, l, i, r);
    }

    ghost var s2 := arr[..];
    if i + 1 < r {
      QuickSortRange(arr, i + 1, r);
      AfterRight(s0, s2, arr[..], l, i, r);
    } else {
      Small(s2, i + 1, r);
      AfterRight(s0, s2, s2, l, i, r);
    }
  }

  /** A range of at most one value needs no sorting. */
  lemma Small(s: seq<Value>, l: int, r: int)
    requires 0 <= l <= r + 1 <= |s| && l >= r
    ensures Permuted(s, s, l, r) && InOrder(s, l, r)
  {
  }

  lemma AfterLeft(s0: seq<Value>, s1: seq<Value>, s2: seq<Value>, l: int, i: int, r: int)
    requires Permuted(s1, s0, l, r) && Divided(s1, l, i, r)
    requires Permuted(s2, s1, l, i - 1) && InOrder(s2, l, i - 1)
    ensures Permuted(s2, s0, l, r) && Divided(s2, l, i, r) && InOrder(s2, l, i - 1)
  {
    DividedLeft(s1, s2, l, i, r);
    PermutedPart(s2, s1, l, i - 1, l, r);
    PermutedTwice(s2, s1, s0, l, r);
  }

  lemma AfterRight(s0: seq<Value>, s2: seq<Value>, s3: seq<Value>, l: int, i: int, r: int)
    requires Permuted(s2, s0, l, r) && Divided(s2, l, i, r) && InOrder(s2, l, i - 1)
    requires Permuted(s3, s2, i + 1, r) && InOrder(s3, i + 1, r)
    ensures Permuted(s3, s0, l, r) && InOrder(s3, l, r)
  {
    DividedRight(s2, s3, l, i, r);
    SamePrefix(s3, s2, i, i + 1);
    SamePrefix(s3, s2, l, i);
    PermutedPart(s3, s2, i + 1, r, l, r);
    PermutedTwice(s3, s2, s0, l, r);
    Ascends(s3, l, i, r);
  }

  method QuickSort(arr: array<Value>)
    modifies arr
    ensures Ascending(arr[..]) && multiset(arr[..]) == multiset(old(arr[..]))
  {
    if arr.Length > 1 {
      QuickSortRange(arr, 0, arr.Length - 1);
      assert arr[..][0..arr.Length] == arr[..] && old(arr[..])[0..arr.Length] == old(arr[..]);
    }
  }
}
