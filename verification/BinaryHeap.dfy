/** The binary heap over a slice: sifting moves a hole instead of swapping. */
module BinaryHeap {
  import opened Values
  import opened Slices

  function Parent(i: int): int
    requires i > 0
  {
    (i - 1) / 2
  }

  /** No child of a place from `from` on is smaller than its parent. */
  ghost predicate HeapFrom(s: seq<Value>, from: int) {
    forall c {:trigger s[c]} :: 0 < c < |s| && Parent(c) >= from ==> s[Parent(c)].key <= s[c].key
  }

  ghost predicate HeapOrder(s: seq<Value>) {
    HeapFrom(s, 0)
  }

  ghost predicate Least(v: Value, bag: multiset<Value>) {
    v in bag && forall w :: w in bag ==> v.key <= w.key
  }

  lemma {:induction false} RootBelow(s: seq<Value>, j: nat)
    requires HeapOrder(s) && j < |s|
    ensures s[0].key <= s[j].key
    decreases j
  {
    if j > 0 {
      RootBelow(s, Parent(j));
    }
  }

  /** The heap order finds the least value at the root. */
  lemma RootLeast(s: seq<Value>)
    requires HeapOrder(s) && s != []
    ensures Least(s[0], multiset(s))
  {
    forall w | w in multiset(s)
      ensures s[0].key <= w.key
    {
      var j :| 0 <= j < |s| && s[j] == w;
      RootBelow(s, j);
    }
  }

  // ---------------------------------------------------------------- sifting up

  /** The order holds but for the place `i`, whose children are not below its parent. */
  ghost predicate UpAt(s: seq<Value>, i: int) {
    && 0 <= i < |s|
    && (forall c {:trigger s[c]} :: 0 < c < |s| && c != i ==> s[Parent(c)].key <= s[c].key)
    && (forall c {:trigger s[c]} :: 0 < i && 0 < c < |s| && Parent(c) == i ==> s[Parent(i)].key <= s[c].key)
  }

  ghost function Swap(s: seq<Value>, i: int, j: int): (t: seq<Value>)
    requires 0 <= i < |s| && 0 <= j < |s|
    ensures multiset(t) == multiset(s) && |t| == |s|
  {
    s[i := s[j]][j := s[i]]
  }

  lemma UpStep(s: seq<Value>, i: int)
    requires UpAt(s, i) && i > 0 && s[Parent(i)].key > s[i].key
    ensures UpAt(Swap(s, i, Parent(i)), Parent(i))
  {
    var p := Parent(i);
    var t := Swap(s, i, p);
    forall c {:trigger t[c]} | 0 < c < |t| && c != p
      ensures t[Parent(c)].key <= t[c].key
    {
      if c != i { assert s[Parent(c)].key <= s[c].key; }
    }
    if p > 0 {
      assert s[Parent(p)].key <= s[p].key;
      forall c {:trigger t[c]} | 0 < c < |t| && Parent(c) == p
        ensures t[Parent(p)].key <= t[c].key
      {
        if c != i { assert s[p].key <= s[c].key; }
      }
    }
  }

  lemma UpEnd(s: seq<Value>, i: int)
    requires UpAt(s, i) && (i == 0 || s[Parent(i)].key <= s[i].key)
    ensures HeapFrom(s, 0)
  {
  }

  /** A value put behind a heap is the only one out of order. */
  lemma UpStart(s: seq<Value>, v: Value)
    requires HeapOrder(s)
    ensures UpAt(s + [v], |s|)
  {
    var t := s + [v];
    assert forall c :: 0 <= c < |s| ==> t[c] == s[c];
  }

  /** `f` is the front of the array as it will be when the held value is in its place `i`: a
      permutation of the front of `was`. Behind it nothing has changed. */
  ghost predicate Holds(s: seq<Value>, was: seq<Value>, f: seq<Value>, i: int, k: Value) {
    && 0 <= i < |f| <= |s| == |was| && f[i] == k && (forall q :: 0 <= q < |f| && q != i ==> s[q] == f[q])
    && multiset(f) == multiset(was[..|f|]) && s[|f|..] == was[|f|..]
  }

  lemma HoldsAt(s: seq<Value>, was: seq<Value>, f: seq<Value>, i: int, j: int, k: Value)
    requires Holds(s, was, f, i, k) && 0 <= j < |f| && j != i
    ensures f[i] == k && s[j] == f[j]
  {
  }

  lemma HoldsSelf(s: seq<Value>, was: seq<Value>, f: seq<Value>, i: int, k: Value)
    requires Holds(s, was, f, i, k)
    ensures 0 <= i < |f| && f[i] == k
  {
  }

  lemma ParentIs(i: int, p: int)
    requires i > 0 && p == (i - 1) / 2
    ensures p == Parent(i) && 0 <= p < i
  {
  }

  lemma CompareIs(a: Value, b: Value)
    ensures Compare(a, b) <= 0 <==> a.key <= b.key
  {
  }

  lemma HoldsStart(s: seq<Value>, i: nat, n: nat)
    requires i < n <= |s|
    ensures Holds(s, s, s[..n], i, s[i])
  {
  }

  lemma HoldsStep(s: seq<Value>, was: seq<Value>, f: seq<Value>, i: int, j: int, k: Value)
    requires Holds(s, was, f, i, k) && 0 <= j < |f| && j != i
    ensures Holds(s[i := s[j]], was, Swap(f, i, j), j, k) && |Swap(f, i, j)| == |f|
  {
  }

  /** What sifting leaves behind: the front of `n` rearranged into the order from `from` on. */
  ghost predicate Sifted(s: seq<Value>, was: seq<Value>, n: int, from: int) {
    && 0 <= n <= |s| == |was| && HeapFrom(s[..n], from)
    && multiset(s[..n]) == multiset(was[..n]) && s[n..] == was[n..]
  }

  lemma HoldsEnd(s: seq<Value>, was: seq<Value>, f: seq<Value>, i: int, k: Value, from: int)
    requires Holds(s, was, f, i, k) && HeapFrom(f, from)
    ensures Sifted(s[i := k], was, |f|, from)
    ensures s[i] == k ==> Sifted(s, was, |f|, from)
  {
    assert s[i := k][..|f|] == f;
    assert s[i] == k ==> s[..|f|] == f;
  }

  method SiftUp(arr: array<Value>, size: nat, index: nat)
    requires index < size <= arr.Length && UpAt(arr[..][..size], index)
    modifies arr
    ensures Sifted(arr[..], old(arr[..]), size, 0)
  {
    hide *;
    ghost var was := arr[..];
    ghost var f := was[..size];
    var k := arr[index];
    HoldsStart(was, index, size);
    var i := index;
    while i > 0
      invariant 0 <= i <= index && |f| == size && (i == index ==> arr[i] == k)
      invariant UpAt(f, i) && Holds(arr[..], was, f, i, k)
    {
      var p := (i - 1) / 2;
      ghost var s := arr[..];
      ParentIs(i, p);
      HoldsAt(s, was, f, i, p, k);
      CompareIs(arr[p], k);
      if Compare(arr[p], k) <= 0 {
        break;
      }
      UpStep(f, i);
      HoldsStep(s, was, f, i, p, k);
      arr[i] := arr[p];
      assert arr[..] == s[i := s[p]];
      f := Swap(f, i, p);
      i := p;
    }
    HoldsSelf(arr[..], was, f, i, k);
    UpEnd(f, i);
    ghost var s := arr[..];
    HoldsEnd(s, was, f, i, k, 0);
    if i != index {
      arr[i] := k;
      assert arr[..] == s[i := k];
    }
  }

  // ---------------------------------------------------------------- sifting down

  /** The order holds from `from` on but for the place `i`, whose children are not below its parent. */
  ghost predicate DownAt(s: seq<Value>, from: int, i: int) {
    && 0 <= from <= i < |s| && (i > from ==> Parent(i) >= from)
    && (forall c {:trigger s[c]} :: 0 < c < |s| && Parent(c) >= from && Parent(c) != i ==> s[Parent(c)].key <= s[c].key)
    && (forall c {:trigger s[c]} :: i > from && 0 < c < |s| && Parent(c) == i ==> s[Parent(i)].key <= s[c].key)
  }

  /** `c` is the child of `i` that is not greater than the other. */
  ghost predicate Smaller(s: seq<Value>, i: int, c: int) {
    && i >= 0 && 0 < c < |s| && Parent(c) == i
    && (forall d {:trigger s[d]} :: 0 < d < |s| && Parent(d) == i ==> s[c].key <= s[d].key)
  }

  lemma DownStep(s: seq<Value>, from: int, i: int, c: int)
    requires DownAt(s, from, i) && Smaller(s, i, c) && s[i].key > s[c].key
    ensures DownAt(Swap(s, i, c), from, c)
  {
    var t := Swap(s, i, c);
    forall d {:trigger t[d]} | 0 < d < |t| && Parent(d) >= from && Parent(d) != c
      ensures t[Parent(d)].key <= t[d].key
    {
      if d == i { assert s[Parent(i)].key <= s[c].key; }
    }
    forall d {:trigger t[d]} | 0 < d < |t| && Parent(d) == c
      ensures t[Parent(c)].key <= t[d].key
    {
      assert s[Parent(d)].key <= s[d].key;
    }
  }

  /** No child, or none that is smaller: the order holds everywhere. */
  lemma DownEnd(s: seq<Value>, from: int, i: int, c: int)
    requires DownAt(s, from, i)
    requires 2 * i + 1 >= |s| || (Smaller(s, i, c) && s[i].key <= s[c].key)
    ensures HeapFrom(s, from)
  {
  }

  lemma DownStart(s: seq<Value>, i: int)
    requires 0 <= i < |s| && HeapFrom(s, i + 1)
    ensures DownAt(s, i, i)
  {
  }

  lemma SmallerChild(s: seq<Value>, i: int, c: int)
    requires 0 <= i && 2 * i + 1 < |s|
    requires c == if 2 * i + 2 < |s| && s[2 * i + 1].key > s[2 * i + 2].key then 2 * i + 2 else 2 * i + 1
    ensures Smaller(s, i, c)
  {
    forall d {:trigger s[d]} | 0 < d < |s| && Parent(d) == i
      ensures s[c].key <= s[d].key
    {
      assert d == 2 * i + 1 || d == 2 * i + 2;
    }
  }

  /** The child to compare with, and whether it has to move up. */
  method PickChild(arr: array<Value>, size: nat, i: nat, k: Value, ghost was: seq<Value>, ghost f: seq<Value>)
    returns (c: nat, move: bool)
    requires i + i + 1 < size == |f| && size <= arr.Length && Holds(arr[..], was, f, i, k)
    ensures i < c < size && Smaller(f, i, c) && (move <==> f[i].key > f[c].key)
  {
    hide *;
    c := i + i + 1;
    var r := c + 1;
    ghost var s := arr[..];
    HoldsAt(s, was, f, i, c, k);
    if r < size {
      HoldsAt(s, was, f, i, r, k);
      CompareIs(arr[c], arr[r]);
    }
    if r < size && Compare(arr[c], arr[r]) > 0 {
      c := r;
    }
    SmallerChild(f, i, c);
    CompareIs(k, arr[c]);
    move := !(Compare(k, arr[c]) <= 0);
  }

  method SiftDown(arr: array<Value>, size: nat, index: nat)
    requires index < size <= arr.Length && HeapFrom(arr[..][..size], index + 1)
    modifies arr
    ensures Sifted(arr[..], old(arr[..]), size, index)
  {
    hide *;
    ghost var was := arr[..];
    ghost var f := was[..size];
    var k := arr[index];
    HoldsStart(was, index, size);
    DownStart(f, index);
    var i := index;
    while i + i + 1 < size
      invariant index <= i < |f| == size && (i == index ==> arr[i] == k)
      invariant DownAt(f, index, i) && Holds(arr[..], was, f, i, k)
      decreases size - i
    {
      var c, move := PickChild(arr, size, i, k, was, f);
      if !move {
        DownEnd(f, index, i, c);
        break;
      }

      ghost var s := arr[..];
      DownStep(f, index, i, c);
      HoldsStep(s, was, f, i, c, k);
      arr[i] := arr[c];
      assert arr[..] == s[i := s[c]];
      f := Swap(f, i, c);
      i := c;
    }
    if i + i + 1 >= size {
      DownEnd(f, index, i, 0);
    }

    ghost var s := arr[..];
    HoldsEnd(s, was, f, i, k, index);
    if i != index {
      arr[i] := k;
      assert arr[..] == s[i := k];
    }
  }

  // ---------------------------------------------------------------- the heap

  /** Past the last parent the order asks nothing. */
  lemma LeavesOrdered(s: seq<Value>)
    ensures HeapFrom(s, |s| / 2)
  {
  }

  /** `_heap_build`: from the last parent down to the root. */
  method Build(arr: array<Value>, size: nat)
    requires size <= arr.Length
    modifies arr
    ensures Sifted(arr[..], old(arr[..]), size, 0)
  {
    hide *;
    ghost var was := arr[..];
    var i := size / 2;
    BuildStart(was, size);
    while i > 0
      invariant 0 <= i <= size / 2 && Sifted(arr[..], was, size, i)
    {
      i := i - 1;
      ghost var s := arr[..];
      SiftedFront(s, was, size, i + 1);
      SiftDown(arr, size, i);
      SiftedTwice(arr[..], s, was, size, i);
    }
  }

  lemma BuildStart(s: seq<Value>, n: nat)
    requires n <= |s|
    ensures Sifted(s, s, n, n / 2)
  {
    LeavesOrdered(s[..n]);
  }

  lemma SiftedFront(s: seq<Value>, was: seq<Value>, n: nat, from: int)
    requires Sifted(s, was, n, from)
    ensures n <= |s| && HeapFrom(s[..n], from)
  {
  }

  lemma SiftedTwice(s: seq<Value>, t: seq<Value>, was: seq<Value>, n: nat, from: int)
    requires Sifted(s, t, n, from) && exists f :: Sifted(t, was, n, f)
    ensures Sifted(s, was, n, from)
  {
  }

  class Heap {
    const data: Slice<Value>

    ghost predicate Valid()
      reads this, data, data.data, data.data.data
    {
      data.Valid() && data.pos == 0 && HeapOrder(data.View())
    }

    ghost function Repr(): set<object>
      reads this, data
    {
      {this, data, data.data, data.data.data}
    }

    /** What the heap holds. */
    ghost function Bag(): multiset<Value>
      requires Valid()
      reads this, data, data.data, data.data.data
    {
      multiset(data.View())
    }

    ghost predicate HasRoom()
      reads this, data, data.data
    {
      data.len < data.data.data.Length || data.data.data.Length < LONG_MAX
    }

    constructor (cap: nat)
      ensures Valid() && fresh(Repr()) && Bag() == multiset{}
    {
      data := new Slice<Value>(0, cap);
    }

    /** `open_heap_by_data`: any values in any order. */
    constructor ByData(values: seq<Value>)
      ensures Valid() && fresh(Repr()) && Bag() == multiset(values)
    {
      hide *;
      var arr := new Array<Value>.ByData(values);
      data := new Slice<Value>.ByArray(arr, 0, |values|);
      new;
      var _ := arr.Close();
      OrderAll(values);
    }

    /** The values of a slice that shows the whole of its storage are put in heap order. */
    method OrderAll(ghost values: seq<Value>)
      requires data.data.ref > 0 && data.pos == 0 && data.len == |values| && data.data.data[..] == values
      modifies data.data.data
      ensures Valid() && Repr() == {this, data, data.data, data.data.data} && Bag() == multiset(values)
    {
      hide *;
      Reached();
      Build(data.data.data, data.len);
      Rebuilt(values);
      Whole(values);
    }

    /** The parts of `Valid()` and `Repr()`. */
    lemma Opened()
      requires Valid()
      ensures data.Valid() && data.pos == 0 && HeapOrder(data.View()) && |data.View()| == data.len
      ensures Repr() == {this, data, data.data, data.data.data} && Bag() == multiset(data.View())
      ensures HasRoom() <==> data.pos + data.len < data.data.data.Length || data.data.data.Length < LONG_MAX
    {
    }

    lemma Reached()
      requires data.data.ref > 0 && data.pos == 0 && data.len <= data.data.data.Length
      ensures data.Valid() && Repr() == {this, data, data.data, data.data.data}
    {
    }

    /** The slice shows the front of its storage. */
    lemma Shown()
      requires data.Valid() && data.pos == 0
      ensures data.len <= data.data.data.Length && data.data.data[..][..data.len] == data.View()
    {
    }

    /** Once the front of the storage is in order, the heap is valid again. */
    lemma Rebuilt(was: seq<Value>)
      requires data.Valid() && data.pos == 0 && Sifted(data.data.data[..], was, data.len, 0)
      ensures Valid() && data.len <= |was| && Bag() == multiset(was[..data.len])
      ensures Repr() == {this, data, data.data, data.data.data}
    {
      assert data.data.data[..][..data.len] == data.View();
    }

    function Len(): (n: nat)
      requires Valid()
      reads this, data, data.data, data.data.data
      ensures n == |Bag()|
    {
      data.len
    }

    method Push(value: Value)
      requires Valid() && HasRoom()
      modifies Repr()
      ensures Valid() && fresh(Repr() - old(Repr()))
      ensures Bag() == old(Bag()) + multiset{value}
    {
      hide *;
      Opened();
      ghost var v := data.View();
      var index := data.len;
      UpStart(v, value);
      var _ := data.Append(value);
      Shown();
      ghost var was := data.data.data[..];
      SiftUp(data.data.data, data.len, index);
      Rebuilt(was);
    }

    /** `*empty` is set on an empty heap and left alone otherwise. */
    method Pop(flag: bool) returns (value: Value, empty: bool)
      requires Valid()
      modifies Repr()
      ensures Valid() && Repr() == old(Repr())
      ensures empty == (flag || old(Bag()) == multiset{})
      ensures old(Bag()) == multiset{} ==> value == EMPTY_VALUE && Bag() == multiset{}
      ensures old(Bag()) != multiset{} ==> Least(value, old(Bag())) && Bag() == old(Bag()) - multiset{value}
    {
      hide *;
      Opened();
      ghost var v := data.View();
      Counts(v);
      empty := flag;
      var len := data.len;
      if len == 0 {
        return EMPTY_VALUE, true;
      }
      RootLeast(v);
      value := data.Pop(len - 1);
      if len == 1 {
        Emptied(v);
        return;
      }
      value := data.Set(0, value);
      AfterTake(v, data.View());
      Shown();
      ghost var was := data.data.data[..];
      SiftDown(data.data.data, len - 1, 0);
      Rebuilt(was);
    }

    lemma Emptied(v: seq<Value>)
      requires data.Valid() && data.pos == 0 && |v| == 1 && data.View() == v[..0] + v[1..]
      ensures Valid() && Bag() == multiset{} == multiset(v) - multiset{v[0]} && multiset(v) != multiset{}
      ensures Repr() == {this, data, data.data, data.data.data}
    {
      assert v == [v[0]];
    }

    method Top() returns (value: Value)
      requires Valid()
      ensures Bag() == multiset{} ==> value == EMPTY_VALUE
      ensures Bag() != multiset{} ==> Least(value, Bag())
    {
      if data.len == 0 {
        return EMPTY_VALUE;
      }
      value := data.Get(0);
      RootLeast(data.View());
    }
  }

  lemma Counts(s: seq<Value>)
    ensures multiset(s) == multiset{} <==> |s| == 0
  {
    assert |multiset(s)| == |s|;
  }

  /** The last value takes the place of the first. */
  lemma AfterTake(s: seq<Value>, t: seq<Value>)
    requires |s| > 1 && t == (s[..|s| - 1] + s[|s|..])[0 := s[|s| - 1]]
    requires HeapOrder(s)
    ensures HeapFrom(t, 1) && multiset(t) == multiset(s) - multiset{s[0]}
  {
    hide HeapOrder, HeapFrom;
    var n := |s| - 1;
    assert s == s[..n] + [s[n]] && s[|s|..] == [];
    assert t == s[..n][0 := s[n]];
    TakenOrder(s, t);
  }

  lemma TakenOrder(s: seq<Value>, t: seq<Value>)
    requires HeapOrder(s) && 0 < |t| <= |s| && forall q :: 0 < q < |t| ==> t[q] == s[q]
    ensures HeapFrom(t, 1)
  {
    forall c {:trigger t[c]} | 0 < c < |t| && Parent(c) >= 1
      ensures t[Parent(c)].key <= t[c].key
    {
      assert s[Parent(c)].key <= s[c].key;
    }
  }

  lemma Whole<T>(s: seq<T>)
    ensures s[..|s|] == s
  {
  }
}
