/** The comparison sorts. */
module Sorting {
  import opened Values

  ghost predicate Ascending(s: seq<Value>) {
    forall i, j :: 0 <= i < j < |s| ==> s[i].key <= s[j].key
  }

  /** The values of one rank, in order. */
  ghost function OfKey(s: seq<Value>, key: int): seq<Value> {
    if s == [] then []
    else OfKey(s[..|s| - 1], key) + if s[|s| - 1].key == key then [s[|s| - 1]] else []
  }

  /** `x` behind everything that is not greater. */
  ghost function Insert(s: seq<Value>, x: Value): seq<Value> {
    if s == [] || Compare(s[|s| - 1], x) <= 0 then s + [x]
    else Insert(s[..|s| - 1], x) + [s[|s| - 1]]
  }

  ghost function StableSort(s: seq<Value>): seq<Value> {
    if s == [] then [] else Insert(StableSort(s[..|s| - 1]), s[|s| - 1])
  }

  /** Both sequences list the values of every rank alike: a permutation that moves no equals. */
  ghost predicate Stable(s: seq<Value>, t: seq<Value>) {
    forall key :: OfKey(s, key) == OfKey(t, key)
  }

  lemma {:induction false} OfKeyConcat(s: seq<Value>, t: seq<Value>, key: int)
    ensures OfKey(s + t, key) == OfKey(s, key) + OfKey(t, key)
  {
    if t == [] {
      assert s + t == s;
    } else {
      var n := |t| - 1;
      assert (s + t)[..|s + t| - 1] == s + t[..n];
      OfKeyConcat(s, t[..n], key);
    }
  }

  lemma {:induction false} OfKeyOne(x: Value, key: int)
    ensures OfKey([x], key) == if x.key == key then [x] else []
  {
    assert [x][..0] == [];
  }

  lemma {:induction false} OfKeyMember(s: seq<Value>, key: int, x: Value)
    ensures x in OfKey(s, key) <==> x in s && x.key == key
  {
    if s != [] {
      OfKeyMember(s[..|s| - 1], key, x);
      assert s == s[..|s| - 1] + [s[|s| - 1]];
    }
  }

  lemma WithoutLast(a: seq<Value>, b: seq<Value>, x: seq<Value>)
    requires a + x == b + x
    ensures a == b
  {
    assert |a| == |b|;
    assert forall i :: 0 <= i < |a| ==> a[i] == (a + x)[i] && b[i] == (b + x)[i];
  }

  lemma {:induction false} StableMembers(s: seq<Value>, t: seq<Value>, x: Value)
    requires Stable(s, t)
    ensures x in s <==> x in t
  {
    OfKeyMember(s, x.key, x);
    OfKeyMember(t, x.key, x);
  }

  lemma {:induction false} OfKeyLast(s: seq<Value>)
    requires s != []
    ensures var a := OfKey(s, s[|s| - 1].key); a != [] && a[|a| - 1] == s[|s| - 1]
  {
  }

  lemma {:induction false} SameLast(s: seq<Value>, t: seq<Value>)
    requires Ascending(s) && Ascending(t) && Stable(s, t) && s != []
    ensures t != [] && s[|s| - 1] == t[|t| - 1]
  {
    var x := s[|s| - 1];
    StableMembers(s, t, x);
    var y := t[|t| - 1];
    StableMembers(s, t, y);
    assert x.key == y.key;
    OfKeyLast(s);
    OfKeyLast(t);
  }

  /** Ascending sequences that list equals alike are the same sequence. */
  lemma {:induction false} StableUnique(s: seq<Value>, t: seq<Value>)
    requires Ascending(s) && Ascending(t) && Stable(s, t)
    ensures s == t
  {
    if s == [] {
      if t != [] { StableMembers(s, t, t[0]); }
    } else {
      SameLast(s, t);
      var n, m, x := |s| - 1, |t| - 1, s[|s| - 1];
      forall key
        ensures OfKey(s[..n], key) == OfKey(t[..m], key)
      {
        assert OfKey(s, key) == OfKey(t, key);
        WithoutLast(OfKey(s[..n], key), OfKey(t[..m], key), if x.key == key then [x] else []);
      }
      hide OfKey;
      StableUnique(s[..n], t[..m]);
      assert s == s[..n] + [x] && t == t[..m] + [x];
    }
  }

  lemma AscendingSnoc(s: seq<Value>, x: Value)
    ensures Ascending(s + [x]) <==> Ascending(s) && forall y :: y in s ==> y.key <= x.key
  {
    var t := s + [x];
    assert t[|s|] == x && forall i :: 0 <= i < |s| ==> t[i] == s[i];
  }

  lemma {:induction false} InsertMembers(s: seq<Value>, x: Value, y: Value)
    ensures y in Insert(s, x) <==> y in s || y == x
  {
    if !(s == [] || Compare(s[|s| - 1], x) <= 0) {
      InsertMembers(s[..|s| - 1], x, y);
      assert s == s[..|s| - 1] + [s[|s| - 1]];
    }
  }

  lemma {:induction false} InsertAscends(s: seq<Value>, x: Value)
    requires Ascending(s)
    ensures Ascending(Insert(s, x)) && |Insert(s, x)| == |s| + 1
  {
    if s == [] || Compare(s[|s| - 1], x) <= 0 {
      AscendingSnoc(s, x);
    } else {
      var n := |s| - 1;
      InsertAscends(s[..n], x);
      var r := Insert(s[..n], x);
      forall y | y in r
        ensures y.key <= s[n].key
      {
        InsertMembers(s[..n], x, y);
      }
      AscendingSnoc(r, s[n]);
    }
  }

  lemma Swapped<T>(r: seq<T>, s: seq<T>, x: seq<T>, y: seq<T>)
    requires r == s + x && (x == [] || y == [])
    ensures r + y == s + y + x
  {
  }

  lemma {:induction false} InsertOfKey(s: seq<Value>, x: Value, key: int)
    ensures OfKey(Insert(s, x), key) == OfKey(s + [x], key)
  {
    OfKeyConcat(s, [x], key);
    OfKeyOne(x, key);
    if !(s == [] || Compare(s[|s| - 1], x) <= 0) {
      var n := |s| - 1;
      InsertOfKey(s[..n], x, key);
      OfKeyConcat(Insert(s[..n], x), [s[n]], key);
      OfKeyConcat(s[..n], [x], key);
      OfKeyOne(s[n], key);
      Swapped(OfKey(Insert(s[..n], x), key), OfKey(s[..n], key), OfKey([x], key), OfKey([s[n]], key));
    }
  }

  /** The specification is what it says: ascending, and a stable permutation. */
  lemma {:induction false} StableSortSorts(s: seq<Value>)
    ensures Ascending(StableSort(s)) && Stable(StableSort(s), s) && |StableSort(s)| == |s|
  {
    if s != [] {
      var n := |s| - 1;
      StableSortSorts(s[..n]);
      InsertAscends(StableSort(s[..n]), s[n]);
      forall key
        ensures OfKey(StableSort(s), key) == OfKey(s, key)
      {
        assert OfKey(StableSort(s[..n]), key) == OfKey(s[..n], key);
        InsertOfKey(StableSort(s[..n]), s[n], key);
        OfKeyConcat(StableSort(s[..n]), [s[n]], key);
        OfKeyOne(s[n], key);
      }
    }
  }

  lemma {:induction false} StableSortUnique(s: seq<Value>, t: seq<Value>)
    requires Ascending(t) && Stable(t, s)
    ensures t == StableSort(s)
  {
    StableSortSorts(s);
    StableUnique(t, StableSort(s));
  }

  // ---------------------------------------------------------------- insertion sort

  /** Everything from `j` on is greater than `x`, so `x` goes in front of it. */
  lemma {:induction false} InsertBehind(s: seq<Value>, x: Value, j: nat)
    requires j <= |s| && forall q :: j <= q < |s| ==> Compare(s[q], x) > 0
    ensures Insert(s, x) == Insert(s[..j], x) + s[j..]
  {
    if j == |s| {
      assert s[..j] == s;
    } else {
      var n := |s| - 1;
      InsertBehind(s[..n], x, j);
      assert s[..n][..j] == s[..j] && s[j..] == s[..n][j..] + [s[n]];
    }
  }

  /** The inner loop: the greater values move up by one and `arr[i]` goes into the gap. */
  method InsertOne(arr: array<Value>, i: nat)
    requires 0 < i < arr.Length
    modifies arr
    ensures arr[..i + 1] == Insert(old(arr[..i]), old(arr[i])) && arr[i + 1..] == old(arr[i + 1..])
  {
    ghost var s := arr[..i];
    var k := arr[i];
    var j := i;
    while j > 0 && Compare(arr[j - 1], k) > 0
      invariant 0 <= j <= i && (j == i ==> arr[i] == k)
      invariant forall q :: 0 <= q < j ==> arr[q] == s[q]
      invariant forall q :: j < q <= i ==> arr[q] == s[q - 1]
      invariant forall q :: i < q < arr.Length ==> arr[q] == old(arr[q])
      invariant forall q :: j <= q < i ==> Compare(s[q], k) > 0
    {
      arr[j] := arr[j - 1];
      j := j - 1;
    }
    InsertBehind(s, k, j);
    assert Insert(s[..j], k) == s[..j] + [k];
    if j != i {
      arr[j] := k;
    }
    hide Insert;
    assert arr[..i + 1] == s[..j] + [k] + s[j..];
  }

  method InsertSort(arr: array<Value>)
    modifies arr
    ensures arr[..] == StableSort(old(arr[..]))
  {
    ghost var was := arr[..];
    if arr.Length == 0 {
      return;
    }
    assert was[..1][..0] == [] && StableSort(was[..1]) == was[..1];
    for i := 1 to arr.Length
      invariant arr[..i] == StableSort(was[..i]) && arr[i..] == was[i..]
    {
      assert was[..i + 1][..i] == was[..i] && arr[i] == arr[i..][0] == was[i];
      ghost var rest := arr[i..];
      InsertOne(arr, i);
      assert arr[i + 1..] == rest[1..] == was[i..][1..];
    }
    assert arr[..arr.Length] == arr[..] && was[..arr.Length] == was;
  }

  // ---------------------------------------------------------------- merge sort

  /** On equal ranks the left one comes first. */
  ghost function Merge(x: seq<Value>, y: seq<Value>): seq<Value> {
    if x == [] then y
    else if y == [] then x
    else if Compare(x[0], y[0]) <= 0 then [x[0]] + Merge(x[1..], y)
    else [y[0]] + Merge(x, y[1..])
  }

  lemma AscendingCons(x: Value, s: seq<Value>)
    ensures Ascending([x] + s) <==> Ascending(s) && forall y :: y in s ==> x.key <= y.key
  {
    var t := [x] + s;
    assert t[0] == x && forall i :: 0 <= i < |s| ==> t[i + 1] == s[i];
  }

  lemma {:induction false} MergeMembers(x: seq<Value>, y: seq<Value>, v: Value)
    ensures v in Merge(x, y) <==> v in x || v in y
    ensures |Merge(x, y)| == |x| + |y|
  {
    if x != [] && y != [] {
      assert x == [x[0]] + x[1..] && y == [y[0]] + y[1..];
      if Compare(x[0], y[0]) <= 0 { MergeMembers(x[1..], y, v); } else { MergeMembers(x, y[1..], v); }
    }
  }

  lemma {:induction false} MergeAscends(x: seq<Value>, y: seq<Value>)
    requires Ascending(x) && Ascending(y)
    ensures Ascending(Merge(x, y))
  {
    if x != [] && y != [] {
      assert x == [x[0]] + x[1..] && y == [y[0]] + y[1..];
      AscendingCons(x[0], x[1..]);
      AscendingCons(y[0], y[1..]);
      if Compare(x[0], y[0]) <= 0 {
        MergeAscends(x[1..], y);
        forall v | v in Merge(x[1..], y)
          ensures x[0].key <= v.key
        {
          MergeMembers(x[1..], y, v);
        }
        AscendingCons(x[0], Merge(x[1..], y));
      } else {
        MergeAscends(x, y[1..]);
        forall v | v in Merge(x, y[1..])
          ensures y[0].key <= v.key
        {
          MergeMembers(x, y[1..], v);
        }
        AscendingCons(y[0], Merge(x, y[1..]));
      }
    }
  }

  /** Above the rank `key` there is nothing of that rank. */
  lemma {:induction false} NoneOfKey(s: seq<Value>, key: int)
    requires forall v :: v in s ==> key < v.key
    ensures OfKey(s, key) == []
  {
    if s != [] {
      NoneOfKey(s[..|s| - 1], key);
      assert s[|s| - 1] in s;
    }
  }

  lemma {:induction false} MergeStable(x: seq<Value>, y: seq<Value>, key: int)
    requires Ascending(x) && Ascending(y)
    ensures OfKey(Merge(x, y), key) == OfKey(x + y, key)
  {
    OfKeyConcat(x, y, key);
    if x != [] && y != [] {
      var x0, x1, y0, y1 := [x[0]], x[1..], [y[0]], y[1..];
      assert x == x0 + x1 && y == y0 + y1;
      AscendingCons(x[0], x1);
      AscendingCons(y[0], y1);
      OfKeyConcat(x0, x1, key);
      OfKeyConcat(y0, y1, key);
      OfKeyOne(y[0], key);
      if Compare(x[0], y[0]) <= 0 {
        MergeStable(x1, y, key);
        OfKeyConcat(x1, y, key);
        OfKeyConcat(x0, Merge(x1, y), key);
        Associate(OfKey(x0, key), OfKey(x1, key), OfKey(y, key));
      } else {
        MergeStable(x, y1, key);
        OfKeyConcat(x, y1, key);
        OfKeyConcat(y0, Merge(x, y1), key);
        if y[0].key == key { NoneOfKey(x, key); }
        Past(OfKey(y0, key), OfKey(x, key), OfKey(y1, key));
      }
    }
  }

  lemma Associate<T>(a: seq<T>, b: seq<T>, c: seq<T>)
    ensures a + (b + c) == (a + b) + c
  {
  }

  lemma Past<T>(a: seq<T>, b: seq<T>, c: seq<T>)
    requires a == [] || b == []
    ensures a + (b + c) == b + (a + c)
  {
  }

  /** Merging two sorted blocks sorts the two blocks together. */
  lemma {:induction false} MergeSorts(x: seq<Value>, y: seq<Value>)
    ensures Merge(StableSort(x), StableSort(y)) == StableSort(x + y)
  {
    var a, b := StableSort(x), StableSort(y);
    StableSortSorts(x);
    StableSortSorts(y);
    MergeAscends(a, b);
    forall key
      ensures OfKey(Merge(a, b), key) == OfKey(x + y, key)
    {
      MergeStable(a, b, key);
      OfKeyConcat(a, b, key);
      OfKeyConcat(x, y, key);
    }
    StableSortUnique(x + y, Merge(a, b));
  }

  /** `front` is what has been taken; `i` of `x` and `k` of `y` are gone. */
  ghost predicate Taken(front: seq<Value>, x: seq<Value>, y: seq<Value>, i: nat, k: nat) {
    i <= |x| && k <= |y| && |front| == i + k && front + Merge(x[i..], y[k..]) == Merge(x, y)
  }

  lemma TakeStart(x: seq<Value>, y: seq<Value>)
    ensures Taken([], x, y, 0, 0)
  {
    assert x[0..] == x && y[0..] == y;
  }

  lemma TakeStep(front: seq<Value>, x: seq<Value>, y: seq<Value>, i: nat, k: nat)
    requires Taken(front, x, y, i, k) && i < |x| && k < |y|
    ensures Compare(x[i], y[k]) <= 0 ==> Taken(front + [x[i]], x, y, i + 1, k)
    ensures Compare(x[i], y[k]) > 0 ==> Taken(front + [y[k]], x, y, i, k + 1)
  {
    assert x[i..][1..] == x[i + 1..] && y[k..][1..] == y[k + 1..];
    hide Taken;
    Associate(front, [x[i]], Merge(x[i + 1..], y[k..]));
    Associate(front, [y[k]], Merge(x[i..], y[k + 1..]));
  }

  lemma {:induction false} TakeEnd(front: seq<Value>, x: seq<Value>, y: seq<Value>, i: nat, k: nat)
    requires Taken(front, x, y, i, k) && (i == |x| || k == |y|)
    ensures Merge(x, y) == front + if i == |x| then y[k..] else x[i..]
  {
  }

  /** The values of both blocks go to `t` until one block is used up. */
  method TakeBoth(arr: array<Value>, t: array<Value>, l0: nat, ml: nat, mr: nat) returns (l: nat, r: nat, j: nat)
    requires l0 <= ml <= mr <= arr.Length && mr - l0 <= t.Length && t != arr
    modifies t
    ensures l0 <= l <= ml <= r <= mr && j == (l - l0) + (r - ml) && (l == ml || r == mr)
    ensures Merge(arr[l0..ml], arr[ml..mr]) == t[..j] + if l == ml then arr[r..mr] else arr[l..ml]
  {
    hide Taken, Merge;
    ghost var x, y := arr[l0..ml], arr[ml..mr];
    ghost var front := [];
    l, r, j := l0, ml, 0;
    TakeStart(x, y);
    while l < ml && r < mr
      invariant l0 <= l <= ml <= r <= mr && j == (l - l0) + (r - ml)
      invariant t[..j] == front && Taken(front, x, y, l - l0, r - ml)
    {
      TakeStep(front, x, y, l - l0, r - ml);
      assert x[l - l0] == arr[l] && y[r - ml] == arr[r];
      if Compare(arr[l], arr[r]) <= 0 {
        t[j] := arr[l];
        l := l + 1;
      } else {
        t[j] := arr[r];
        r := r + 1;
      }
      front := front + [t[j]];
      j := j + 1;
    }
    TakeEnd(front, x, y, l - l0, r - ml);
    assert x[l - l0..] == arr[l..ml] && y[r - ml..] == arr[r..mr];
  }

  /** What is left of the left block moves to the end of the right one. */
  method MoveRest(arr: array<Value>, l: nat, ml0: nat, r0: nat, ghost mr: nat) returns (r: nat)
    requires l <= ml0 <= r0 <= mr <= arr.Length && (l == ml0 || r0 == mr)
    modifies arr
    ensures r == r0 - (ml0 - l) && l <= r
    ensures arr[r..mr] == (if l == ml0 then old(arr[r0..mr]) else old(arr[l..ml0]))
    ensures forall q :: 0 <= q < l || mr <= q < arr.Length ==> arr[q] == old(arr[q])
  {
    ghost var was, d := arr[..], r0 - ml0;
    var ml := ml0;
    r := r0;
    while l < ml
      invariant l <= ml <= ml0 && r == ml + d
      invariant forall q :: r <= q < r0 ==> arr[q] == was[q - d]
      invariant forall q :: 0 <= q < ml || r0 <= q < arr.Length ==> arr[q] == was[q]
    {
      r := r - 1;
      ml := ml - 1;
      arr[r] := arr[ml];
    }
    if l < ml0 {
      SameStretch(arr[..], r, was, l, ml0 - l);
    }
  }

  /** Two stretches that agree value by value. */
  lemma SameStretch(s: seq<Value>, a: nat, t: seq<Value>, b: nat, n: nat)
    requires a + n <= |s| && b + n <= |t| && forall q :: a <= q < a + n ==> s[q] == t[q - a + b]
    ensures s[a..a + n] == t[b..b + n]
  {
  }

  /** The values in `t` go in front of them. */
  method CopyBack(arr: array<Value>, t: array<Value>, j0: nat, r0: nat)
    requires j0 <= r0 <= arr.Length && j0 <= t.Length && t != arr
    modifies arr
    ensures arr[r0 - j0..r0] == t[..j0]
    ensures forall q :: 0 <= q < r0 - j0 || r0 <= q < arr.Length ==> arr[q] == old(arr[q])
  {
    var j, r := j0, r0;
    while j > 0
      invariant 0 <= j <= j0 && r0 - r == j0 - j
      invariant forall q :: r <= q < r0 ==> arr[q] == t[q - (r0 - j0)]
      invariant forall q :: 0 <= q < r || r0 <= q < arr.Length ==> arr[q] == old(arr[q])
    {
      r := r - 1;
      j := j - 1;
      arr[r] := t[j];
    }
  }

  /** Two neighbouring blocks become one, in place but for what waits in `t`. */
  method MergeBlocks(arr: array<Value>, t: array<Value>, l0: nat, ml: nat, mr: nat)
    requires l0 <= ml <= mr <= arr.Length && mr - l0 <= t.Length && t != arr
    modifies arr, t
    ensures arr[l0..mr] == Merge(old(arr[l0..ml]), old(arr[ml..mr]))
    ensures forall q :: 0 <= q < l0 || mr <= q < arr.Length ==> arr[q] == old(arr[q])
  {
    hide *;
    var l, r, j := TakeBoth(arr, t, l0, ml, mr);
    ghost var front := t[..j];
    r := MoveRest(arr, l, ml, r, mr);
    ghost var back := arr[r..mr];
    CopyBack(arr, t, j, r);
    assert arr[r..mr] == back;
    assert arr[l0..mr] == arr[l0..r] + arr[r..mr];
  }

  ghost function Min(a: int, b: int): int {
    if a < b then a else b
  }

  /** From `p` on, `s` is cut into blocks of `w`, the last perhaps shorter, and each is the sorted
      block of `was`. */
  ghost predicate Blocks(s: seq<Value>, was: seq<Value>, w: nat, p: nat)
    requires |s| == |was| && w > 0
    decreases |s| - p
  {
    p >= |s| || (Block(s, was, p, Min(p + w, |s|)) && Blocks(s, was, w, p + w))
  }

  ghost predicate Block(s: seq<Value>, was: seq<Value>, p: int, q: int)
    requires |s| == |was|
  {
    0 <= p <= q <= |s| && s[p..q] == StableSort(was[p..q])
  }

  lemma {:induction false} Singles(s: seq<Value>, p: nat)
    ensures Blocks(s, s, 1, p)
    decreases |s| - p
  {
    if p < |s| {
      assert s[p..p + 1] == [s[p]] && [s[p]][..0] == [];
      assert StableSort([]) == [] && StableSort([s[p]]) == [s[p]];
      Singles(s, p + 1);
    }
  }

  /** Only the part from `p` on matters. */
  lemma {:induction false} BlocksFrom(s: seq<Value>, s': seq<Value>, was: seq<Value>, w: nat, p: nat)
    requires |s| == |s'| == |was| && w > 0 && Blocks(s, was, w, p)
    requires forall q :: p <= q < |s| ==> s[q] == s'[q]
    ensures Blocks(s', was, w, p)
    decreases |s| - p
  {
    if p < |s| {
      var e := Min(p + w, |s|);
      assert s[p..e] == s'[p..e];
      BlocksFrom(s, s', was, w, p + w);
    }
  }

  /** The pass has made wide blocks of everything up to `l`: if the rest were in wide blocks, all would be. */
  ghost predicate Widened(s: seq<Value>, was: seq<Value>, w: nat, l: nat)
    requires |s| == |was| && w > 0
  {
    forall s': seq<Value> ::
      |s'| == |s| && (forall q :: 0 <= q < l && q < |s| ==> s'[q] == s[q]) && Blocks(s', was, w, l)
      ==> Blocks(s', was, w, 0)
  }

  lemma WidenedStep(s: seq<Value>, s': seq<Value>, was: seq<Value>, w: nat, l: nat)
    requires |s| == |s'| == |was| && w > 0 && l < |s| && Widened(s, was, w, l)
    requires Block(s', was, l, Min(l + w, |s|)) && forall q :: 0 <= q < l ==> s'[q] == s[q]
    ensures Widened(s', was, w, l + w)
  {
    forall t: seq<Value> |
      |t| == |s'| && (forall q :: 0 <= q < l + w && q < |s'| ==> t[q] == s'[q]) && Blocks(t, was, w, l + w)
      ensures Blocks(t, was, w, 0)
    {
      hide *;
      MinIs(l + w, |s|);
      SameBlock(s', t, was, l, Min(l + w, |s|));
      BlocksFront(t, was, w, l);
      WidenedAt(s, t, was, w, l);
    }
  }

  lemma SameBlock(s: seq<Value>, t: seq<Value>, was: seq<Value>, p: int, q: int)
    requires |s| == |t| == |was| && Block(s, was, p, q) && forall k :: p <= k < q && 0 <= k < |s| ==> t[k] == s[k]
    ensures Block(t, was, p, q)
  {
    hide StableSort;
    assert t[p..q] == s[p..q];
  }

  lemma BlocksFront(s: seq<Value>, was: seq<Value>, w: nat, p: nat)
    requires |s| == |was| && w > 0 && Block(s, was, p, Min(p + w, |s|)) && Blocks(s, was, w, p + w)
    ensures Blocks(s, was, w, p)
  {
    hide Block;
  }

  lemma {:induction false} WidenedAt(s: seq<Value>, t: seq<Value>, was: seq<Value>, w: nat, l: nat)
    requires |s| == |t| == |was| && w > 0 && Widened(s, was, w, l) && Blocks(t, was, w, l)
    requires forall q :: 0 <= q < l && q < |s| ==> t[q] == s[q]
    ensures Blocks(t, was, w, 0)
  {
    hide Blocks;
  }

  /** Two narrow blocks that have been merged are a wide one. */
  lemma MergedBlock(s: seq<Value>, s': seq<Value>, was: seq<Value>, l: nat, ml: nat, mr: nat)
    requires |s| == |s'| == |was| && l <= ml <= mr <= |s|
    requires Block(s, was, l, ml) && Block(s, was, ml, mr)
    requires s'[l..mr] == Merge(s[l..ml], s[ml..mr])
    ensures Block(s', was, l, mr)
  {
    hide StableSort, Merge;
    MergeSorts(was[l..ml], was[ml..mr]);
    assert was[l..ml] + was[ml..mr] == was[l..mr];
  }

  /** One merge of a pass: two blocks of `w` at `l` become one of `2 * w`. */
  method MergeNext(arr: array<Value>, t: array<Value>, w: nat, l: nat, ghost was: seq<Value>) returns (mr: nat)
    requires t != arr && t.Length == arr.Length == |was| && w > 0 && l + w < arr.Length
    requires Widened(arr[..], was, w + w, l) && Blocks(arr[..], was, w, l)
    modifies arr, t
    ensures mr == (if l + w + w > arr.Length then arr.Length else l + w + w)
    ensures Widened(arr[..], was, w + w, l + w + w) && Blocks(arr[..], was, w, l + w + w)
  {
    hide *;
    ghost var s := arr[..];
    var ml := l + w;
    mr := ml + w;
    if mr > arr.Length {
      mr := arr.Length;
    }
    MinIs(l + w + w, |s|);
    FirstBlocks(s, was, w, l, ml, mr);
    MergeBlocks(arr, t, l, ml, mr);
    assert s[l..ml] == old(arr[l..ml]) && s[ml..mr] == old(arr[ml..mr]) && arr[..][l..mr] == arr[l..mr];
    MergedBlock(s, arr[..], was, l, ml, mr);
    assert forall q :: 0 <= q < l ==> arr[..][q] == s[q];
    WidenedStep(s, arr[..], was, w + w, l);
    assert forall q :: l + w + w <= q < |s| ==> s[q] == arr[..][q];
    BlocksFrom(s, arr[..], was, w, l + w + w);
  }

  lemma MinIs(a: int, b: int)
    ensures Min(a, b) == if a > b then b else a
  {
  }

  lemma FirstBlocks(s: seq<Value>, was: seq<Value>, w: nat, l: nat, ml: nat, mr: nat)
    requires |s| == |was| && w > 0 && Blocks(s, was, w, l) && ml == l + w < |s| && mr == Min(l + w + w, |s|)
    ensures Block(s, was, l, ml) && Block(s, was, ml, mr) && Blocks(s, was, w, l + w + w)
  {
  }

  /** A last block that has no partner stays as it is. */
  lemma PassEnd(s: seq<Value>, was: seq<Value>, w: nat, l: nat)
    requires |s| == |was| && w > 0 && Widened(s, was, w + w, l) && Blocks(s, was, w, l) && l + w >= |s|
    ensures Blocks(s, was, w + w, 0)
  {
    assert Blocks(s, was, w + w, l);
  }

  /** One pass over the array. */
  method Pass(arr: array<Value>, t: array<Value>, w: nat, ghost was: seq<Value>)
    requires t != arr && t.Length == arr.Length == |was| && w > 0 && Blocks(arr[..], was, w, 0)
    modifies arr, t
    ensures Blocks(arr[..], was, w + w, 0)
  {
    var l := 0;
    ghost var p := 0;
    assert Widened(arr[..], was, w + w, 0);
    hide *;
    while l + w < arr.Length
      invariant l <= p && (l == p || l == arr.Length)
      invariant Widened(arr[..], was, w + w, p) && Blocks(arr[..], was, w, p)
      decreases arr.Length - l
    {
      l := MergeNext(arr, t, w, l, was);
      p := p + w + w;
    }
    PassEnd(arr[..], was, w, p);
  }

  method MergeSort(arr: array<Value>)
    modifies arr
    ensures arr[..] == StableSort(old(arr[..]))
  {
    hide Blocks, StableSort;
    ghost var was := arr[..];
    var t := new Value[arr.Length](_ => EMPTY_VALUE);
    Singles(was, 0);
    var i := 1;
    while i < arr.Length
      invariant i > 0 && Blocks(arr[..], was, i, 0)
      decreases arr.Length - i
    {
      Pass(arr, t, i, was);
      i := i + i;
    }
    OneBlock(arr[..], was, i);
  }

  lemma {:induction false} OneBlock(s: seq<Value>, was: seq<Value>, w: nat)
    requires |s| == |was| && w > 0 && Blocks(s, was, w, 0) && w >= |s|
    ensures s == StableSort(was)
  {
    if s == [] {
      assert was == [];
    } else {
      assert s[0..|s|] == s && was[0..|s|] == was;
    }
  }

  /** Which of the two sorts runs cannot be told from the result. */
  method Sort(arr: array<Value>)
    modifies arr
    ensures arr[..] == StableSort(old(arr[..]))
  {
    if arr.Length > 60 {
      MergeSort(arr);
    } else {
      InsertSort(arr);
    }
  }
}
