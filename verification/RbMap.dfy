/** Sorted item sequences as finite maps from keys to values. */
module RbMap {
  import opened Values
  import opened RbShape
  import opened RbBalance

  ghost predicate Sorted(s: seq<Item>) {
    forall i, j :: 0 <= i < j < |s| ==> s[i].v.key < s[j].v.key
  }

  ghost function MapOf(s: seq<Item>): map<int, Value> {
    if s == [] then map[] else map[s[0].v.key := s[0].v] + MapOf(s[1..])
  }

  ghost predicate HasKey(s: seq<Item>, k: int) {
    exists i :: 0 <= i < |s| && s[i].v.key == k
  }

  lemma MapPlus(a: map<int, Value>, b: map<int, Value>, k: int, v: Value)
    requires k !in a && k !in b
    ensures a + map[k := v] + b == (a + b)[k := v]
  {
  }

  lemma PlusAssoc(a: map<int, Value>, b: map<int, Value>, c: map<int, Value>)
    ensures a + (b + c) == (a + b) + c
  {
  }

  lemma {:induction false} MapOfConcat(a: seq<Item>, b: seq<Item>)
    ensures MapOf(a + b) == MapOf(a) + MapOf(b)
  {
    if a == [] {
      assert a + b == b;
    } else {
      MapOfConcat(a[1..], b);
      assert (a + b)[1..] == a[1..] + b;
      PlusAssoc(map[a[0].v.key := a[0].v], MapOf(a[1..]), MapOf(b));
    }
  }

  lemma {:induction false} MapOfKeys(s: seq<Item>, k: int)
    ensures k in MapOf(s) <==> HasKey(s, k)
  {
    if s != [] {
      MapOfKeys(s[1..], k);
      if HasKey(s, k) {
        var i :| 0 <= i < |s| && s[i].v.key == k;
        if i > 0 { assert s[1..][i - 1].v.key == k; }
      }
      if HasKey(s[1..], k) {
        var i :| 0 <= i < |s[1..]| && s[1..][i].v.key == k;
        assert s[i + 1].v.key == k;
      }
    }
  }

  lemma {:induction false} MapOfSize(s: seq<Item>)
    requires Sorted(s)
    ensures |MapOf(s)| == |s|
  {
    if s != [] {
      MapOfSize(s[1..]);
      MapOfKeys(s[1..], s[0].v.key);
      assert MapOf(s) == MapOf(s[1..])[s[0].v.key := s[0].v];
    }
  }

  lemma {:induction false} MapOfThree(a: seq<Item>, x: Item, b: seq<Item>)
    ensures MapOf(a + [x] + b) == MapOf(a) + map[x.v.key := x.v] + MapOf(b)
    ensures MapOf(a + b) == MapOf(a) + MapOf(b)
  {
    assert MapOf([x]) == map[x.v.key := x.v];
    MapOfConcat(a + [x], b);
    MapOfConcat(a, [x]);
    MapOfConcat(a, b);
  }

  lemma {:induction false} Outside(s: seq<Item>, k: int)
    requires (forall i :: 0 <= i < |s| ==> s[i].v.key < k) || (forall i :: 0 <= i < |s| ==> k < s[i].v.key)
    ensures k !in MapOf(s)
  {
    MapOfKeys(s, k);
  }

  /** A value put between the smaller and the greater keys is the map update. */
  lemma {:induction false} InsertItem(a: seq<Item>, x: Item, b: seq<Item>)
    requires Sorted(a + b)
    requires forall i :: 0 <= i < |a| ==> a[i].v.key < x.v.key
    requires forall i :: 0 <= i < |b| ==> x.v.key < b[i].v.key
    ensures Sorted(a + [x] + b)
    ensures x.v.key !in MapOf(a + b)
    ensures MapOf(a + [x] + b) == MapOf(a + b)[x.v.key := x.v]
  {
    SortedInsert(a, x, b);
    MapOfThree(a, x, b);
    Outside(a, x.v.key);
    Outside(b, x.v.key);
    MapPlus(MapOf(a), MapOf(b), x.v.key, x.v);
  }

  lemma SortedInsert(a: seq<Item>, x: Item, b: seq<Item>)
    requires Sorted(a + b)
    requires forall i :: 0 <= i < |a| ==> a[i].v.key < x.v.key
    requires forall i :: 0 <= i < |b| ==> x.v.key < b[i].v.key
    ensures Sorted(a + [x] + b)
  {
    var s, s' := a + b, a + [x] + b;
    forall i, j | 0 <= i < j < |s'|
      ensures s'[i].v.key < s'[j].v.key
    {
      assert i != |a| ==> s'[i] == s[if i < |a| then i else i - 1];
      assert j != |a| ==> s'[j] == s[if j < |a| then j else j - 1];
      assert i == |a| ==> s'[j] == b[j - |a| - 1];
    }
  }

  /** What sortedness says around one item. */
  lemma SortedAround(a: seq<Item>, x: Item, b: seq<Item>)
    requires Sorted(a + [x] + b)
    ensures Sorted(a + b)
    ensures forall i :: 0 <= i < |a| ==> a[i].v.key < x.v.key
    ensures forall i :: 0 <= i < |b| ==> x.v.key < b[i].v.key
  {
    var s, s' := a + b, a + [x] + b;
    assert s'[|a|] == x;
    forall i, j | 0 <= i < j < |s|
      ensures s[i].v.key < s[j].v.key
    {
      assert s[i] == s'[if i < |a| then i else i + 1] && s[j] == s'[if j < |a| then j else j + 1];
    }
    assert forall i :: 0 <= i < |a| ==> s'[i] == a[i];
    assert forall i :: 0 <= i < |b| ==> s'[|a| + 1 + i] == b[i];
  }

  /** Dropping an item is dropping its key. */
  lemma {:induction false} DeleteItem(a: seq<Item>, x: Item, b: seq<Item>)
    requires Sorted(a + [x] + b)
    ensures Sorted(a + b)
    ensures x.v.key in MapOf(a + [x] + b) && MapOf(a + [x] + b)[x.v.key] == x.v
    ensures MapOf(a + b) == MapOf(a + [x] + b) - {x.v.key}
    ensures Stays(a + [x] + b, a + b, x.v.key)
  {
    assert a + [] + b == a + b;
    ItemStays(a, [x], [], b, x.v.key);
    SortedAround(a, x, b);
    InsertItem(a, x, b);
  }

  /** Overwriting a value in its node is the map update. */
  lemma {:induction false} ReplaceItem(a: seq<Item>, x: Item, y: Item, b: seq<Item>)
    requires Sorted(a + [x] + b) && x.v.key == y.v.key
    ensures Sorted(a + [y] + b)
    ensures x.v.key in MapOf(a + [x] + b)
    ensures MapOf(a + [y] + b) == MapOf(a + [x] + b)[y.v.key := y.v]
  {
    SortedAround(a, x, b);
    InsertItem(a, x, b);
    InsertItem(a, y, b);
  }

  /** Away from `key` every node keeps its place in the collection, and its value. */
  ghost predicate Stays(s: seq<Item>, s': seq<Item>, key: int) {
    && (forall x :: x in s && x.v.key != key ==> x in s')
    && (forall x :: x in s' && x.v.key != key ==> x in s)
  }

  lemma {:induction false} StaysSame(s: seq<Item>, key: int)
    ensures Stays(s, s, key)
    ensures key !in MapOf(s) ==> MapOf(s) - {key} == MapOf(s)
  {
  }

  lemma ItemStays(a: seq<Item>, x: seq<Item>, y: seq<Item>, b: seq<Item>, key: int)
    requires forall i :: i in x + y ==> i.v.key == key
    ensures Stays(a + x + b, a + y + b, key)
  {
    assert forall i :: i in x || i in y ==> i in x + y;
  }

  /** The key belongs in the hole of the context. */
  ghost predicate Between(c: Ctx, key: int) {
    && (forall i :: 0 <= i < |Before(c)| ==> Before(c)[i].v.key < key)
    && (forall i :: 0 <= i < |After(c)| ==> key < After(c)[i].v.key)
  }

  lemma {:induction false} SplitItems(c: Ctx, t: Tree)
    requires t.Bin?
    ensures AllItems(c, t) == (Before(c) + Items(t.l)) + [Item(t.n, t.v)] + (Items(t.r) + After(c))
  {
    Regroup(Before(c), Items(t.l), [Item(t.n, t.v)], Items(t.r), After(c));
    Regroup([], Before(c) + Items(t.l), [Item(t.n, t.v)], Items(t.r), After(c));
  }

  lemma PartsBelow(a: seq<Item>, b: seq<Item>, x: Item, key: int)
    requires forall i :: 0 <= i < |a| ==> a[i].v.key < key
    requires forall i :: 0 <= i < |b| ==> b[i].v.key < x.v.key
    requires x.v.key < key
    ensures forall i :: 0 <= i < |a + b + [x]| ==> (a + b + [x])[i].v.key < key
  {
  }

  lemma PartsAbove(a: seq<Item>, b: seq<Item>, x: Item, key: int)
    requires forall i :: 0 <= i < |a| ==> x.v.key < a[i].v.key
    requires forall i :: 0 <= i < |b| ==> key < b[i].v.key
    requires key < x.v.key
    ensures forall i :: 0 <= i < |[x] + a + b| ==> key < ([x] + a + b)[i].v.key
  {
  }

  /** Going down on the side the comparison tells keeps the key between. */
  lemma BetweenStep(c: Ctx, t: Tree, key: int)
    requires Sorted(AllItems(c, t)) && t.Bin? && Between(c, key)
    ensures key < t.v.key ==> Between(LeftOf(c, t), key)
    ensures t.v.key < key ==> Between(RightOf(c, t), key)
  {
    hide Sorted, AllItems;
    var x := Item(t.n, t.v);
    var a, b := Before(c) + Items(t.l), Items(t.r) + After(c);
    SplitItems(c, t);
    SortedAround(a, x, b);
    assert forall i :: 0 <= i < |Items(t.l)| ==> a[|Before(c)| + i] == Items(t.l)[i];
    assert forall i :: 0 <= i < |Items(t.r)| ==> b[i] == Items(t.r)[i];
    if key < t.v.key { PartsAbove(Items(t.r), After(c), x, key); }
    if t.v.key < key { PartsBelow(Before(c), Items(t.l), x, key); }
  }

  /** Overwriting the value of the focus with one of the same key. */
  lemma {:induction false} OverwriteKeeps(c: Ctx, t: Tree, v: Value)
    requires RedBlack(Plug(c, t)) && Sorted(AllItems(c, t)) && t.Bin? && v.key == t.v.key
    ensures var t' := t.(v := v);
      && RedBlack(Plug(c, t')) && Sorted(AllItems(c, t'))
      && |AllItems(c, t')| == |AllItems(c, t)|
      && MapOf(AllItems(c, t')) == MapOf(AllItems(c, t))[v.key := v]
      && Stays(AllItems(c, t), AllItems(c, t'), v.key)
  {
    hide Stays, MapOf;
    var t' := t.(v := v);
    PlugRedBlack(c, t);
    PlugRedBlack(c, t');
    SplitItems(c, t);
    SplitItems(c, t');
    ReplaceItem(Before(c) + Items(t.l), Item(t.n, t.v), Item(t.n, v), Items(t.r) + After(c));
    ItemStays(Before(c) + Items(t.l), [Item(t.n, t.v)], [Item(t.n, v)], Items(t.r) + After(c), v.key);
  }

  /** Filling the empty slot where a key belongs. */
  lemma {:induction false} InsertBetween(c: Ctx, x: Item)
    requires Sorted(AllItems(c, Leaf)) && Between(c, x.v.key)
    ensures var s := Before(c) + [x] + After(c);
      && Sorted(s) && |s| == |AllItems(c, Leaf)| + 1
      && MapOf(s) == MapOf(AllItems(c, Leaf))[x.v.key := x.v]
      && Stays(AllItems(c, Leaf), s, x.v.key)
  {
    assert AllItems(c, Leaf) == Before(c) + After(c) && AllItems(c, Leaf) == Before(c) + [] + After(c);
    var a, b := Before(c), After(c);
    hide Stays, MapOf, Before, After, Items;
    ItemStays(a, [], [x], b, x.v.key);
    InsertItem(a, x, b);
  }
}
