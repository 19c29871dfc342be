/** Reference-counted arrays and the slices that view them: sharing, growth and its cost. */
module Slices {

  const LONG_MAX := 0x7fff_ffff_ffff_ffff
  const ARRAY_MAX_SIZE := LONG_MAX - 16

  class Array<T(0)> {
    var ref: int
    const data: array<T>

    constructor (cap: nat)
      ensures ref == 1 && data.Length == cap && fresh(data)
    {
      ref := 1;
      data := new T[cap];
    }

    constructor ByData(values: seq<T>)
      ensures ref == 1 && data[..] == values && fresh(data)
    {
      ref := 1;
      data := new T[|values|](i requires 0 <= i < |values| => values[i]);
    }

    /** One more slice refers to the array. */
    method Assign()
      requires ref > 0
      modifies this
      ensures ref == old(ref) + 1
    {
      ref := ref + 1;
    }

    /** One slice fewer; the storage is freed with the last one. */
    method Close() returns (freed: bool)
      requires ref > 0
      modifies this
      ensures ref == old(ref) - 1 && (freed <==> ref == 0)
    {
      ref := ref - 1;
      freed := ref == 0;
    }
  }

  /** The capacity after growing from `oldCap` when at least `minCap` is needed. */
  function GrownCap(oldCap: nat, minCap: int): nat {
    var half := oldCap + oldCap / 2;
    var wanted := if half < minCap then minCap else half;
    if wanted <= ARRAY_MAX_SIZE then wanted
    else if minCap > ARRAY_MAX_SIZE then LONG_MAX
    else ARRAY_MAX_SIZE
  }

  /** The capacity that `slice_grow` asks for. */
  method NewCap(oldCap: nat, minCap: int) returns (newCap: nat)
    requires oldCap <= LONG_MAX && minCap <= LONG_MAX
    requires oldCap <= ARRAY_MAX_SIZE || minCap > ARRAY_MAX_SIZE
    ensures newCap == GrownCap(oldCap, minCap) && newCap >= oldCap && newCap >= minCap
  {
    newCap := oldCap + oldCap / 2;
    if newCap < minCap {
      newCap := minCap;
    }
    if newCap > ARRAY_MAX_SIZE {
      newCap := if minCap > ARRAY_MAX_SIZE then LONG_MAX else ARRAY_MAX_SIZE;
    }
  }

  /** `memcpy(to, from + at, count)` */
  method CopyFrom<T>(to: array<T>, from: array<T>, at: nat, count: nat)
    requires to != from && count <= to.Length && at + count <= from.Length
    modifies to
    ensures to[..count] == from[at..at + count]
  {
    var i := 0;
    while i < count
      invariant 0 <= i <= count && to[..i] == from[at..at + i]
    {
      to[i] := from[at + i];
      i := i + 1;
    }
  }

  /** A stretch of values moved down over the one at its start; the last one stays behind it. */
  ghost function GapClosed<T>(s: seq<T>, at: nat, end: nat): seq<T>
    requires at < end <= |s|
  {
    s[..at] + s[at + 1..end] + [s[end - 1]] + s[end..]
  }

  /** Moves `a[at + 1..end]` down by one place. */
  method CloseGap<T>(a: array<T>, at: nat, end: nat)
    requires at < end <= a.Length
    modifies a
    ensures a[..] == GapClosed(old(a[..]), at, end)
  {
    var i := at + 1;
    while i < end
      invariant at < i <= end
      invariant forall k :: 0 <= k < at || i - 1 <= k < a.Length ==> a[k] == old(a[k])
      invariant forall k :: at <= k < i - 1 ==> a[k] == old(a[k + 1])
    {
      a[i - 1] := a[i];
      i := i + 1;
    }
  }

  /** `memmove(a + from + 1, a + from, count)` */
  method MoveUp<T>(a: array<T>, from: nat, count: nat)
    requires from + count < a.Length
    modifies a
    ensures forall k :: 0 <= k <= from || from + count < k < a.Length ==> a[k] == old(a[k])
    ensures forall k :: from < k <= from + count ==> a[k] == old(a[k - 1])
  {
    var i := count;
    while i > 0
      invariant 0 <= i <= count
      invariant forall k :: 0 <= k <= from + i || from + count < k < a.Length ==> a[k] == old(a[k])
      invariant forall k :: from + i < k <= from + count ==> a[k] == old(a[k - 1])
    {
      a[from + i] := a[from + i - 1];
      i := i - 1;
    }
  }

  /** What `slice_insert` makes of the elements and the cell behind them: it moves as many elements up as lie
      behind the index, but from the front, whatever the index is. */
  ghost function Inserted<T>(s: seq<T>, behind: T, index: nat, value: T): seq<T>
    requires index <= |s|
  {
    seq(|s| + 1, k requires 0 <= k <= |s| =>
      if k == index then value
      else if 0 < k <= |s| - index then s[k - 1]
      else if k < |s| then s[k] else behind)
  }

  /** The storage after an insertion among the `len` elements from `from`, with room behind them. */
  ghost function Shifted<T>(cells: seq<T>, from: nat, len: nat, index: nat, value: T): seq<T>
    requires from + len < |cells| && index <= len
  {
    cells[..from] + Inserted(cells[from..from + len], cells[from + len], index, value) + cells[from + len + 1..]
  }

  lemma {:induction false} ShiftedBy<T>(cells: seq<T>, now: seq<T>, from: nat, len: nat, index: nat, value: T)
    requires from + len < |cells| == |now| && index <= len
    requires now[from..from + len + 1] == Inserted(cells[from..from + len], cells[from + len], index, value)
    requires forall k :: 0 <= k < |cells| && !(from <= k <= from + len) ==> now[k] == cells[k]
    ensures now == Shifted(cells, from, len, index, value)
  {
    hide Inserted;
    assert now == now[..from] + now[from..from + len + 1] + now[from + len + 1..];
    assert now[..from] == cells[..from] && now[from + len + 1..] == cells[from + len + 1..];
  }

  /** The neighbours that the wrong move mixes up are equal. */
  ghost predicate Echoes<T>(s: seq<T>, behind: T, index: nat) {
    && (forall k :: 0 < k < index && k <= |s| - index && k < |s| ==> s[k] == s[k - 1])
    && (forall k :: index < k < |s| && k > |s| - index ==> s[k] == s[k - 1])
    && (0 < index < |s| ==> behind == s[|s| - 1])
  }

  /** An insertion comes out right at either end, and elsewhere only if equal neighbours hide the wrong move. */
  lemma {:induction false} InsertedRight<T>(s: seq<T>, behind: T, index: nat, value: T)
    requires index <= |s|
    ensures Inserted(s, behind, index, value) == s[..index] + [value] + s[index..]
      <==> index == 0 || index == |s| || Echoes(s, behind, index)
    ensures 0 < index < |s| && behind != s[|s| - 1] ==>
      Inserted(s, behind, index, value) != s[..index] + [value] + s[index..]
  {
    var t, right := Inserted(s, behind, index, value), s[..index] + [value] + s[index..];
    assert |t| == |right| == |s| + 1;
    assert forall k :: 0 <= k <= |s| ==> right[k] == if k < index then s[k] else if k == index then value else s[k - 1];
    if index == 0 || index == |s| || Echoes(s, behind, index) {
      forall k | 0 <= k <= |s|
        ensures t[k] == right[k]
      {
      }
      assert t == right;
    } else {
      Scrambled(s, behind, index, value, t, right);
    }
  }

  /** An insertion at the end is an append, whatever lies behind. */
  lemma {:induction false} InsertedEnd<T>(s: seq<T>, behind: T, value: T)
    ensures Inserted(s, behind, |s|, value) == s + [value]
  {
    InsertedRight(s, behind, |s|, value);
    hide Inserted;
    assert s[..|s|] == s && s[|s|..] == [];
  }

  lemma {:induction false} ShiftedEnd<T>(cells: seq<T>, from: nat, len: nat, value: T)
    requires from + len < |cells|
    ensures Shifted(cells, from, len, len, value) == cells[from + len := value]
  {
    InsertedEnd(cells[from..from + len], cells[from + len], value);
    hide Inserted;
    assert Shifted(cells, from, len, len, value)
      == cells[..from] + (cells[from..from + len] + [value]) + cells[from + len + 1..];
  }

  /** The last element says what lay behind, where that matters. */
  lemma {:induction false} InsertedLast<T>(s: seq<T>, behind: T, index: nat, value: T)
    requires index <= |s|
    ensures var t := Inserted(s, behind, index, value);
      |t| == |s| + 1 && t == Inserted(s, t[|s|], index, value)
  {
  }

  lemma Scrambled<T>(s: seq<T>, behind: T, index: nat, value: T, t: seq<T>, right: seq<T>)
    requires 0 < index < |s| && !Echoes(s, behind, index) && t == Inserted(s, behind, index, value)
    requires |right| == |s| + 1
    requires forall k :: 0 <= k <= |s| ==>
      right[k] == if k < index then s[k] else if k == index then value else s[k - 1]
    ensures t != right
  {
    if behind != s[|s| - 1] {
      assert t[|s|] != right[|s|];
    } else if k :| 0 < k < index && k <= |s| - index && k < |s| && s[k] != s[k - 1] {
      assert t[k] != right[k];
    } else {
      var k :| index < k < |s| && k > |s| - index && s[k] != s[k - 1];
      assert t[k] != right[k];
    }
  }

  /** Inserting between the first two of three elements loses the third. */
  lemma InsertionLost()
    ensures Inserted([1, 2, 3], 0, 1, 9) == [1, 9, 2, 0]
  {
  }

  /** A window of a window. */
  lemma Window<T>(s: seq<T>, from: nat, count: nat, len: nat)
    requires from + count <= |s| && len <= count
    ensures s[from..from + count][..len] == s[from..from + len]
  {
  }

  /** Fresh storage of capacity `cap` that starts with `count` elements of the given one. */
  method CopyOf<T(0)>(arr: Array<T>, at: nat, count: nat, cap: nat, ghost len: nat) returns (copy: Array<T>)
    requires at + count <= arr.data.Length && len <= count <= cap
    ensures fresh(copy) && fresh(copy.data) && copy.ref == 1 && copy.data.Length == cap
    ensures copy.data[0..len] == arr.data[at..at + len]
  {
    copy := new Array<T>(cap);
    CopyFrom(copy.data, arr.data, at, count);
    Window(arr.data[..], at, count, len);
    Window(copy.data[..], 0, count, len);
    assert copy.data[..][..count] == copy.data[..count] && copy.data[..][..len] == copy.data[..len];
  }

  /** Writing the cell behind a window makes the window longer. */
  lemma Extended<T>(s: seq<T>, from: nat, at: nat, value: T)
    requires from <= at < |s|
    ensures s[at := value][from..at + 1] == s[from..at] + [value]
  {
  }

  /** Closing a gap in the storage closes it in every window that ends where the move ends. */
  lemma GapWindow<T>(s: seq<T>, s': seq<T>, from: nat, at: nat, end: nat)
    requires from <= at < end <= |s| == |s'|
    requires s' == GapClosed(s, at, end)
    ensures s'[from..end - 1] == s[from..end][..at - from] + s[from..end][at - from + 1..]
  {
    assert s' == s[..at] + s[at + 1..end] + ([s[end - 1]] + s[end..]);
    assert s'[..end - 1] == s[..at] + s[at + 1..end];
    assert s'[from..end - 1] == s'[..end - 1][from..];
    assert s[from..end][..at - from] == s[from..at];
    assert s[from..end][at - from + 1..] == s[at + 1..end];
  }

  class Slice<T(0)> {
    var data: Array<T>
    var pos: nat
    var len: nat

    ghost predicate Valid()
      reads this, data
    {
      data.ref > 0 && pos + len <= data.data.Length
    }

    /** The elements the slice shows. */
    ghost function View(): seq<T>
      requires Valid()
      reads this, data, data.data
    {
      data.data[pos..pos + len]
    }

    constructor (len: nat, cap: nat)
      requires len <= cap
      ensures Valid() && fresh(data) && fresh(data.data) && data.ref == 1
      ensures pos == 0 && this.len == len && data.data.Length == cap
    {
      this.data := new Array<T>(cap);
      this.pos, this.len := 0, len;
    }

    constructor ByArray(arr: Array<T>, start: nat, end: nat)
      requires arr.ref > 0 && start <= end <= arr.data.Length
      modifies arr
      ensures Valid() && data == arr && arr.ref == old(arr.ref) + 1
      ensures pos == start && len == end - start && View() == arr.data[start..end]
    {
      data, pos, len := arr, start, end - start;
      new;
      arr.Assign();
    }

    /** A second view of the same storage; it may reach past the end of the first. */
    constructor BySlice(sli: Slice<T>, start: nat, end: nat)
      requires sli.Valid() && start <= end && sli.pos + end <= sli.data.data.Length
      modifies sli.data
      ensures Valid() && data == sli.data && data.ref == old(sli.data.ref) + 1
      ensures sli.Valid() && sli.View() == old(sli.View())
      ensures pos == sli.pos + start && len == end - start
      ensures View() == sli.data.data[sli.pos + start..sli.pos + end]
    {
      data, pos, len := sli.data, sli.pos + start, end - start;
      new;
      sli.data.Assign();
    }

    function Cap(): nat
      requires Valid()
      reads this, data
    {
      data.data.Length - pos
    }

    method Get(index: nat) returns (value: T)
      requires Valid() && index < len
      ensures value == View()[index]
    {
      value := data.data[pos + index];
    }

    method Set(index: nat, value: T) returns (was: T)
      requires Valid() && index < len
      modifies data.data
      ensures Valid() && was == old(View())[index]
      ensures data.data[..] == old(data.data[..])[pos + index := value]
      ensures View() == old(View())[index := value]
    {
      was := data.data[pos + index];
      data.data[pos + index] := value;
    }

    /** Moves the slice to storage of its own; every other view keeps the old storage as it was. */
    method Grow(minCap: int)
      requires Valid() && data.data.Length <= LONG_MAX && minCap <= LONG_MAX
      requires data.data.Length - pos <= ARRAY_MAX_SIZE || minCap - pos > ARRAY_MAX_SIZE
      modifies this, data
      ensures Valid() && fresh(data) && fresh(data.data) && data.ref == 1
      ensures old(data).ref == old(data.ref) - 1
      ensures pos == 0 && len == old(len) && View() == old(View())
      ensures data.data.Length == GrownCap(old(Cap()), minCap - old(pos))
      ensures data.data.Length >= minCap - old(pos) && data.data.Length >= old(Cap())
    {
      hide GrownCap;
      var oldCap := data.data.Length - pos;
      var newCap := NewCap(oldCap, minCap - pos);
      var newArr := CopyOf(data, pos, oldCap, newCap, len);
      var _ := data.Close();
      data := newArr;
      pos := 0;
    }

    /** The view grows by the value, in place while there is room behind it, else in new storage. */
    method Append(value: T) returns (ghost copied: nat)
      requires Valid() && (pos + len < data.data.Length || data.data.Length < LONG_MAX)
      modifies this, data, data.data
      ensures Valid() && View() == old(View()) + [value]
      ensures old(pos + len < data.data.Length) ==>
        && data == old(data) && data.ref == old(data.ref) && pos == old(pos) && copied == 0
        && data.data[..] == old(data.data[..])[pos + old(len) := value]
      ensures old(pos + len == data.data.Length) ==>
        && fresh(data) && fresh(data.data) && data.ref == 1 && pos == 0
        && old(data).ref == old(data.ref) - 1
        && old(data).data[..] == old(data.data[..])
        && data.data.Length == GrownCap(old(Cap()), old(Cap()) + 1) && copied == old(Cap())
    {
      hide GrownCap;
      ghost var was := View();
      copied := 0;
      var at := pos + len;
      if at == data.data.Length {
        copied := data.data.Length - pos;
        Grow(data.data.Length + 1);
        at := len;
      }

      ghost var cells := data.data[..];
      data.data[at] := value;
      len := len + 1;
      Extended(cells, pos, at, value);
      assert data.data[..] == cells[at := value];
      assert View() == data.data[..][pos..at + 1];
    }

    /** `slice_insert`; `behind` is the cell behind the elements, or the first fresh one if there is none. */
    method Insert(index: nat, value: T) returns (ghost behind: T)
      requires Valid() && index <= len && (pos + len < data.data.Length || data.data.Length < LONG_MAX)
      modifies this, data, data.data
      ensures Valid() && len == old(len) + 1 && View() == Inserted(old(View()), behind, index, value)
      ensures old(pos + len < data.data.Length) ==>
        && data == old(data) && data.ref == old(data.ref) && pos == old(pos) && behind == old(data.data[pos + len])
        && data.data[..] == Shifted(old(data.data[..]), pos, old(len), index, value)
      ensures old(pos + len == data.data.Length) ==>
        && fresh(data) && fresh(data.data) && data.ref == 1 && pos == 0
        && old(data).ref == old(data.ref) - 1 && old(data).data[..] == old(data.data[..])
        && data.data.Length == GrownCap(old(Cap()), old(Cap()) + 1)
    {
      hide GrownCap, Inserted, Shifted;
      ghost var was := View();
      if pos + len == data.data.Length {
        Grow(data.data.Length + 1);
      }
      assert View() == was;
      behind := data.data[pos + len];
      assert forall k :: 0 <= k < len ==> data.data[pos + k] == was[k];
      ghost var cells, n := data.data[..], len;
      InsertAt(was, index, value, behind);
      ShiftedBy(cells, data.data[..], pos, n, index, value);
    }

    /** The move and the store, once there is room. */
    method InsertAt(ghost was: seq<T>, index: nat, value: T, ghost behind: T)
      requires Valid() && index <= len && pos + len < data.data.Length && |was| == len && behind == data.data[pos + len]
      requires forall k :: 0 <= k < len ==> data.data[pos + k] == was[k]
      modifies this`len, data.data
      ensures Valid() && len == old(len) + 1 && View() == Inserted(was, behind, index, value)
      ensures forall k :: 0 <= k < data.data.Length && !(pos <= k < pos + len) ==> data.data[k] == old(data.data[k])
    {
      var toMove := len - index;
      if toMove > 0 {
        MoveUp(data.data, pos, toMove);
      }
      data.data[pos + index] := value;
      len := len + 1;
      forall k | 0 <= k <= |was|
        ensures data.data[pos + k] == Inserted(was, behind, index, value)[k]
      {
      }
    }

    /** Removes one element and moves the rest down in the shared storage. */
    method Pop(index: nat) returns (value: T)
      requires Valid() && index < len
      modifies this`len, data.data
      ensures Valid() && value == old(View())[index]
      ensures View() == old(View())[..index] + old(View())[index + 1..]
      ensures data.data[..] == GapClosed(old(data.data[..]), pos + index, pos + old(len))
      ensures len == old(len) - 1
    {
      hide GapClosed;
      value := data.data[pos + index];
      ghost var was := data.data[..];
      CloseGap(data.data, pos + index, pos + len);
      GapWindow(was, data.data[..], pos, pos + index, pos + len);
      assert data.data[pos..pos + len - 1] == data.data[..][pos..pos + len - 1];
      len := len - 1;
    }

    /** Gives the storage up; `freed` tells whether this was its last slice. */
    method Close() returns (freed: bool)
      requires Valid()
      modifies data
      ensures data.ref == old(data.ref) - 1 && (freed <==> data.ref == 0)
    {
      freed := data.Close();
    }
  }

  // ---------------------------------------------------------------- the cost of growing

  /** Capacity after `n` appends to a fresh empty slice of capacity `cap`. */
  ghost function CapAfter(cap: nat, n: nat): nat {
    if n == 0 then cap
    else
      var was := CapAfter(cap, n - 1);
      if n - 1 == was then GrownCap(was, was + 1) else was
  }

  /** Elements copied by those appends. */
  ghost function CopiedBy(cap: nat, n: nat): nat {
    if n == 0 then 0
    else CopiedBy(cap, n - 1) + if n - 1 == CapAfter(cap, n - 1) then n - 1 else 0
  }

  /** Growing by half makes appending cheap on average, from any initial capacity, and never takes more than half as
      much again as is needed. */
  lemma {:induction false} AmortizedGrowth(cap: nat, n: nat)
    requires n + n / 2 <= ARRAY_MAX_SIZE
    ensures n <= CapAfter(cap, n) && (CapAfter(cap, n) == cap || CapAfter(cap, n) <= n + n / 2)
    ensures CopiedBy(cap, n) <= 3 * CapAfter(cap, n)
    ensures CopiedBy(cap, n) <= 4 * n
  {
    if n > 0 { AmortizedGrowth(cap, n - 1); }
  }

  lemma NextCap(cap: nat, i: nat)
    requires CapAfter(cap, i) < LONG_MAX && i + i / 2 + 1 <= ARRAY_MAX_SIZE
    ensures var was := CapAfter(cap, i);
      && CapAfter(cap, i + 1) == (if i == was then GrownCap(was, was + 1) else was) < LONG_MAX
      && CopiedBy(cap, i + 1) == CopiedBy(cap, i) + if i == was then i else 0
  {
  }

  /** One append to a slice that has had `i` so far. */
  method AppendNext<T(0)>(sli: Slice<T>, value: T, ghost cap: nat, ghost i: nat) returns (ghost copied: nat)
    requires sli.Valid() && sli.pos == 0 && sli.len == i
    requires sli.data.data.Length == CapAfter(cap, i) < LONG_MAX && i + i / 2 + 1 <= ARRAY_MAX_SIZE
    modifies sli, sli.data, sli.data.data
    ensures sli.Valid() && sli.pos == 0 && sli.len == i + 1
    ensures sli.View() == old(sli.View()) + [value]
    ensures sli.data.data.Length == CapAfter(cap, i + 1) < LONG_MAX
    ensures CopiedBy(cap, i + 1) == CopiedBy(cap, i) + copied
    ensures sli.data == old(sli.data) || (fresh(sli.data) && fresh(sli.data.data))
  {
    NextCap(cap, i);
    hide CapAfter, CopiedBy, GrownCap, Slice.View;
    copied := sli.Append(value);
  }

  lemma {:induction false} NothingYet<T(0)>(sli: Slice<T>, cap: nat)
    requires sli.Valid() && sli.len == 0
    ensures sli.View() == [] && CapAfter(cap, 0) == cap && CopiedBy(cap, 0) == 0
  {
  }

  lemma Halves(i: nat, n: nat, most: nat)
    requires i < n && n + n / 2 <= most
    ensures i + i / 2 + 1 <= most
  {
  }

  lemma TakeNext<T>(s: seq<T>, i: nat)
    requires i < |s|
    ensures s[..i + 1] == s[..i] + [s[i]]
  {
  }

  /** The bound as a caller of `Append` meets it. */
  method AppendAll<T(0)>(sli: Slice<T>, values: seq<T>) returns (ghost copied: nat)
    requires sli.Valid() && sli.pos == 0 && sli.len == 0
    requires |values| + |values| / 2 <= ARRAY_MAX_SIZE && sli.data.data.Length < LONG_MAX
    modifies sli, sli.data, sli.data.data
    ensures sli.Valid() && sli.View() == values
    ensures copied <= 4 * |values|
    ensures sli.data.data.Length == old(sli.data.data.Length) || sli.data.data.Length <= |values| + |values| / 2
  {
    hide *;
    ghost var cap := sli.data.data.Length;
    copied := 0;
    NothingYet(sli, cap);
    AmortizedGrowth(cap, |values|);
    for i := 0 to |values|
      invariant sli.Valid() && sli.View() == values[..i]
      invariant sli.pos == 0 && sli.len == i
      invariant sli.data.data.Length == CapAfter(cap, i) < LONG_MAX && copied == CopiedBy(cap, i)
      invariant sli.data == old(sli.data) || (fresh(sli.data) && fresh(sli.data.data))
    {
      TakeNext(values, i);
      Halves(i, |values|, ARRAY_MAX_SIZE);
      ghost var c := AppendNext(sli, values[i], cap, i);
      copied := copied + c;
    }
    assert values[..|values|] == values;
  }

  class Stack<T(0)> {
    const data: Slice<T>

    ghost predicate Valid()
      reads this, data, data.data
    {
      data.Valid() && data.pos == 0 && data.data.ref == 1
    }

    ghost function Repr(): set<object>
      reads this, data
    {
      {this, data, data.data, data.data.data}
    }

    ghost function Contents(): seq<T>
      requires Valid()
      reads this, data, data.data, data.data.data
    {
      data.View()
    }

    /** The storage behind the stack; it changes exactly when the stack grows. */
    ghost function Storage(): Array<T>
      reads this, data
    {
      data.data
    }

    constructor (cap: nat)
      ensures Valid() && fresh(Repr()) && Contents() == [] && Storage().data.Length == cap
    {
      data := new Slice<T>(0, cap);
    }

    function Len(): nat
      reads this, data
    {
      data.len
    }

    method Push(value: T)
      requires Valid() && (Len() < Storage().data.Length || Storage().data.Length < LONG_MAX)
      modifies Repr()
      ensures Valid() && Contents() == old(Contents()) + [value] && Len() == old(Len()) + 1
      ensures fresh(Repr() - old(Repr()))
      ensures old(Len() < Storage().data.Length) ==> Storage() == old(Storage()) && Repr() == old(Repr())
    {
      var _ := data.Append(value);
    }

    method Pop(default: T) returns (value: T, empty: bool)
      requires Valid()
      modifies Repr()
      ensures Valid() && Storage() == old(Storage()) && Repr() == old(Repr())
      ensures empty <==> old(Contents()) == []
      ensures empty ==> Contents() == [] && value == default
      ensures !empty ==>
        && value == old(Contents())[|old(Contents())| - 1]
        && Contents() == old(Contents())[..|old(Contents())| - 1]
        && Len() == old(Len()) - 1
    {
      if data.len == 0 {
        return default, true;
      }
      empty := false;
      value := data.Pop(data.len - 1);
    }
  }
}
