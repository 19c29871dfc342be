/** The skip list: towers of any heights over a sorted chain. */
module SkipList {
  import opened Values
  import opened Slices
  import opened SkipShape
  import opened SkipSpec
  import opened SkipLinks

  class SkipList {
    const head: SlNode
    const two: bool   // `compare2` was given
    var length: int
    var level: nat
    ghost var all: seq<SlNode>
    ghost var hs: seq<nat>
    ghost var contents: seq<Value>
    ghost var freed: set<SlNode>

    ghost predicate Linked()
      reads this, all
    {
      Shape(all, hs, head) && Heights(all, hs) && Levels(all, hs, LinksOf(all)) && Backward(all)
    }

    ghost predicate Valid()
      reads this, all
    {
      && Linked() && Carries(all, contents) && Ordered(two, contents)
      && length == |contents| && TopLevel(hs, level)
      && forall n :: n in all ==> n !in freed
    }

    /** `open_skiplist` */
    constructor (two: bool)
      ensures Valid() && fresh(all) && contents == [] && hs == [MAX_LEVEL] && this.two == two && freed == {}
    {
      head := new SlNode(EMPTY_VALUE, MAX_LEVEL);
      this.two := two;
      length, level := 0, 1;
      all, hs, contents, freed := [head], [MAX_LEVEL], [], {};
      new;
      Empty();
    }

    lemma Empty()
      requires all == [head] && hs == [MAX_LEVEL] && head.next == seq(MAX_LEVEL, _ => null)
      ensures Linked()
    {
      forall l | 0 <= l < MAX_LEVEL
        ensures LevelOk(all, hs, LinksOf(all), l)
      {
        assert LinkOk(all, hs, LinksOf(all), l, 0);
      }
    }

    /** Where the link of place `i` at level `l` leads, and what stands there. */
    lemma {:induction false} Follow(i: nat, l: nat)
      requires Valid() && i < |hs| && hs[i] > l
      ensures |all| == |hs| == |contents| + 1 && l < MAX_LEVEL && l < |all[i].next|
      ensures all[i].next[l] == At(all, Nxt(hs, i, l))
      ensures i < Nxt(hs, i, l) <= |hs|
      ensures Nxt(hs, i, l) < |hs| ==> hs[Nxt(hs, i, l)] > l && all[Nxt(hs, i, l)].value == contents[Nxt(hs, i, l) - 1]
    {
      assert LevelOk(all, hs, LinksOf(all), l);
      assert LinkOk(all, hs, LinksOf(all), l, i);
    }

    /** The inner loop of every search: forward on one level while the values are less. */
    method SearchLevel(from: SlNode, l: nat, v: Value, both: bool, ghost start: nat)
      returns (pr: SlNode, node: SlNode?, cmp: int, ghost q: nat)
      requires Valid() && (both ==> two)
      requires start < |all| && all[start] == from && hs[start] > l && Ahead(both, contents, v, start)
      ensures start <= q < |all| && pr == all[q] && Stops(both, hs, contents, v, l, q)
      ensures node == At(all, Nxt(hs, q, l))
      ensures node != null ==> cmp == Cmp(both, contents[Nxt(hs, q, l) - 1], v) >= 0
    {
      hide *;
      Opened(v);
      pr, q, cmp := from, start, 0;
      Follow(q, l);
      node := pr.next[l];
      while node != null
        invariant start <= q < |all| && pr == all[q] && hs[q] > l && l < |pr.next| && Ahead(both, contents, v, q)
        invariant node == At(all, Nxt(hs, q, l)) == pr.next[l]
        decreases |all| - q
      {
        Follow(q, l);
        AtIs(all, Nxt(hs, q, l));
        cmp := Cmp(both, node.value, v);
        if cmp >= 0 {
          break;
        }
        pr := node;
        q := Nxt(hs, q, l);
        AheadIs(both, contents, v, q);
        Follow(q, l);
        node := pr.next[l];
      }
      Follow(q, l);
      AtIs(all, Nxt(hs, q, l));
      StopsIs(both, hs, contents, v, l, q);
    }

    /** The parts of `Valid()` that a search needs. */
    lemma Opened(key: Value)
      requires Valid()
      ensures KeysAscend(contents) && Ordered(two, contents) && (forall i :: 0 <= i < |hs| ==> 1 <= hs[i])
      ensures Ahead(false, contents, key, 0)
      ensures |all| == |hs| == |contents| + 1 && 1 <= level <= MAX_LEVEL && hs[0] == MAX_LEVEL && all[0] == head
      ensures NoneAbove(hs, contents, key, level)
      ensures Distinct(all)
    {
      AllBelow(hs, contents, key, level);
      OrderedKeys(two, contents);
    }

    lemma {:induction false} StopsAt(l: nat, key: Value, q: nat, both: bool)
      requires Stops(both, hs, contents, key, l, q)
      ensures |hs| == |contents| + 1 && q < |hs| && hs[q] > l && Ahead(both, contents, key, q)
      ensures q < Nxt(hs, q, l) <= |hs|
    {
    }

    /** `skiplist_fast_get`: an equal value if there is one, else the neighbour asked for. */
    method FastGet(key: Value, reverse: bool) returns (res: SlNode?, ghost at: nat)
      requires Valid()
      ensures |all| == |hs| == |contents| + 1 && at <= |all| && res == At(all, at)
      ensures Tallest(hs, contents, key, at)
        || (if reverse then Absent(contents, key, at) else at > 0 && Absent(contents, key, at - 1))
    {
      hide *;
      Opened(key);
      var prev := head;
      var node: SlNode? := null;
      var l: int := level - 1;
      ghost var q := 0;
      while l >= 0
        invariant -1 <= l < level && q < |all| && prev == all[q] && hs[q] > l && Ahead(false, contents, key, q)
        invariant NoneAbove(hs, contents, key, l + 1)
        invariant l < level - 1 ==> Misses(hs, contents, key, l + 1, q) && node == At(all, Nxt(hs, q, l + 1))
      {
        var cmp;
        prev, node, cmp, q := SearchLevel(prev, l, key, false, q);
        StopsAt(l, key, q, false);
        AtIs(all, Nxt(hs, q, l));
        if node != null {
          CmpIs(contents[Nxt(hs, q, l) - 1], key);
          if cmp == 0 {
            Found(hs, contents, key, l, q);
            return node, Nxt(hs, q, l);
          }
        }
        MissesIs(hs, contents, key, l, q);
        Missed(hs, contents, key, l, q);
        l := l - 1;
      }
      NotThere(hs, contents, key, q);
      AtIs(all, q);
      return if reverse then prev else node, if reverse then q else q + 1;
    }

    method Get(key: Value) returns (value: Value, ok: bool)
      requires Valid()
      ensures ok <==> exists i :: EqualAt(contents, key, i)
      ensures ok ==> exists i :: Tallest(hs, contents, key, i) && value == contents[i - 1]
      ensures !ok ==> value == EMPTY_VALUE
    {
      hide *;
      Opened(key);
      var prev := head;
      var l: int := level - 1;
      ghost var q := 0;
      while l >= 0
        invariant -1 <= l < level && q < |all| && prev == all[q] && hs[q] > l && Ahead(false, contents, key, q)
        invariant NoneAbove(hs, contents, key, l + 1)
      {
        var node, cmp;
        prev, node, cmp, q := SearchLevel(prev, l, key, false, q);
        StopsAt(l, key, q, false);
        AtIs(all, Nxt(hs, q, l));
        if node != null {
          CmpIs(contents[Nxt(hs, q, l) - 1], key);
          if cmp == 0 {
            Found(hs, contents, key, l, q);
            Follow(q, l);
            TallestIs(hs, contents, key, Nxt(hs, q, l));
            return node.value, true;
          }
        }
        MissesIs(hs, contents, key, l, q);
        Missed(hs, contents, key, l, q);
        l := l - 1;
      }
      NoneAtAll(hs, contents, key);
      return EMPTY_VALUE, false;
    }

    lemma Parts()
      requires Valid()
      ensures Shape(all, hs, head) && Heights(all, hs) && Levels(all, hs, LinksOf(all)) && Backward(all)
      ensures Carries(all, contents) && Ordered(two, contents) && length == |contents| && TopLevel(hs, level)
      ensures forall n :: n in all ==> n !in freed
      ensures |all| == |hs| == |contents| + 1 && Distinct(all) && all[0] == head && hs[0] == MAX_LEVEL
      ensures forall i :: 0 <= i < |hs| ==> 1 <= hs[i] <= MAX_LEVEL
    {
    }

    method SetPrevs(node: SlNode, before: SlNode, ghost p: nat)
      requires Distinct(all) && Backward(all) && p < |all| == |hs| == |contents| + 1 && before == all[p] && node !in all
      requires |before.next| > 0 && before.next[0] == At(all, p + 1)
      requires Carries(all, contents) && Heights(all, hs) && Levels(all, hs, LinksOf(all))
      modifies node`prev, all`prev
      ensures BackwardAround(all, p, node)
      ensures Carries(all, contents) && Heights(all, hs) && Levels(all, hs, LinksOf(all))
    {
      hide Levels;
      node.prev := before;
      if before.next[0] != null {
        before.next[0].prev := node;
      }
      assert LinksOf(all) == old(LinksOf(all));
    }

    /** The chain grows by the node behind place `p`; its links come later. */
    method PutBehind(node: SlNode, before: SlNode, ghost p: nat, ghost h: nat)
      requires Valid() && p < |all| && before == all[p] && node !in all && |node.next| == h
      modifies node`prev, all`prev
      ensures p < |all| == |hs| == |contents| + 1
      ensures Standing(Put(all, p, node), Put(hs, p, h), Insert(contents, p, node.value))
      ensures Partly(all, hs, LinksOf(Put(all, p, node)), p, h, node, 0)
    {
      hide *;
      Parts();
      Follow(p, 0);
      FirstNext(hs, p);
      SetPrevs(node, before, p);
      CarriesPut(all, contents, p, node);
      HeightsPut(all, hs, p, node, h);
      BackwardPut(all, p, node);
      StandingIs(Put(all, p, node), Put(hs, p, h), Insert(contents, p, node.value));
      LinksPut(all, p, node);
      PartlyStart(all, hs, LinksOf(all), LinksOf(Put(all, p, node)), p, h, node);
    }

    /** The new node goes in on every level its tower reaches; a taller tower raises the list. */
    method LinkTowers(ghost vs: seq<Value>, prev: seq<SlNode?>, node: SlNode, h: nat, ghost p: nat, ghost pi: seq<nat>)
      requires Tracks(prev, all, hs, pi, p, 0, level) && TopLevel(hs, level) && 1 <= h <= MAX_LEVEL
      requires node !in all && Distinct(all) && |all| == |hs| > p && all[0] == head && hs[0] == MAX_LEVEL
      requires Standing(Put(all, p, node), Put(hs, p, h), vs)
      requires Partly(all, hs, LinksOf(Put(all, p, node)), p, h, node, 0)
      modifies this`level, all`next, node`next
      ensures Standing(Put(all, p, node), Put(hs, p, h), vs)
      ensures Levels(Put(all, p, node), Put(hs, p, h), LinksOf(Put(all, p, node)))
      ensures level == if h <= old(level) then old(level) else h
    {
      hide *;
      ghost var chain, hs' := Put(all, p, node), Put(hs, p, h);
      TopLevelIs(hs, level);
      var top := if h <= level then h else level;
      for l := 0 to top
        invariant level == old(level) && Standing(chain, hs', vs) && Partly(all, hs, LinksOf(chain), p, h, node, l)
      {
        TracksAt(prev, all, hs, pi, p, level, l);
        StandingAt(all, hs, vs, p, h, node, pi[l], l);
        ghost var nx := LinksOf(chain);
        var pr := prev[l];
        LinkLevel(chain, hs', vs, pr, node, l);
        PartlyStep(all, hs, nx, LinksOf(chain), p, pi[l], h, node, l);
      }
      if h > level {
        for l := level to h
          invariant level == old(level) && Standing(chain, hs', vs) && Partly(all, hs, LinksOf(chain), p, h, node, l)
        {
          TopStraddles(hs, p, level, l);
          StandingAt(all, hs, vs, p, h, node, 0, l);
          HeadEmpty(all, hs, chain, p, h, node, l);
          ghost var nx := LinksOf(chain);
          LinkTop(chain, hs', vs, head, node, l);
          PartlyStep(all, hs, nx, LinksOf(chain), p, 0, h, node, l);
        }
        level := h;
      }
      PartlyEnd(all, hs, LinksOf(chain), p, h, node);
    }

    /** A new tower of height `h` between the places that the search has found. */
    method AddNode(value: Value, h: nat, prev: seq<SlNode?>, ghost p: nat, ghost pi: seq<nat>)
      requires Valid() && 1 <= h <= MAX_LEVEL
      requires Tracks(prev, all, hs, pi, p, 0, level) && Fits(two, contents, value, p)
      modifies this, all
      ensures Valid() && freed == old(freed) && p <= old(|contents|) && contents == Insert(old(contents), p, value)
      ensures p < |old(hs)| && hs == Put(old(hs), p, h)
      ensures forall n :: n in all ==> n in old(all) || fresh(n)
    {
      hide *;
      Parts();
      TopLevelIs(hs, level);
      TracksAt(prev, all, hs, pi, p, level, 0);
      FirstPlace(hs, pi[0], p);
      var node := new SlNode(value, h);
      assert node !in all && node !in freed;
      PutBehind(node, prev[0], p, h);
      LinkTowers(Insert(contents, p, value), prev, node, h, p, pi);
      ShapePut(all, hs, head, p, h, node);
      TopPut(hs, p, h, old(level));
      OrderedInsert(two, contents, p, value);
      all, hs, contents := Put(all, p, node), Put(hs, p, h), Insert(contents, p, value);
      length := length + 1;
      Assemble();
    }

    /** A value that compares equal is overwritten in its node. */
    method Replace(node: SlNode, value: Value, ghost j: nat)
      requires Valid() && 1 <= j < |all| == |contents| + 1 && node == all[j] && Cmp(two, contents[j - 1], value) == 0
      modifies node`value, this`contents
      ensures Valid() && contents == old(contents)[j - 1 := value]
    {
      hide *;
      Parts();
      Overwrite(node, value, j);
      OrderedReplace(two, contents, j - 1, value);
      contents := contents[j - 1 := value];
      StandingIs(all, hs, contents);
      Assemble();
    }

    method Overwrite(node: SlNode, value: Value, ghost j: nat)
      requires Distinct(all) && Carries(all, contents) && 1 <= j < |all| && node == all[j]
      requires Backward(all) && Heights(all, hs) && Levels(all, hs, LinksOf(all))
      modifies node`value
      ensures Backward(all) && Heights(all, hs) && Levels(all, hs, LinksOf(all))
      ensures |contents| == |all| - 1 && Carries(all, contents[j - 1 := value])
    {
      hide Levels;
      node.value := value;
      assert LinksOf(all) == old(LinksOf(all));
    }

    /** The search of `skiplist_set`: a value that compares equal, or the towers in front of the gap. */
    method FindGap(value: Value) returns (prev: seq<SlNode?>, hit: SlNode?, ghost j: nat, ghost pi: seq<nat>)
      requires Valid()
      ensures hit != null ==> 1 <= j < |all| == |contents| + 1 && hit == all[j] && Cmp(two, contents[j - 1], value) == 0
      ensures hit == null ==> j < |all| && Tracks(prev, all, hs, pi, j, 0, level) && Fits(two, contents, value, j)
    {
      hide *;
      Opened(value);
      prev := seq(MAX_LEVEL + 1, _ => null);
      prev := prev[level := head];
      pi := seq(MAX_LEVEL + 1, _ => 0);
      ghost var q: nat := 0;
      var l: int := level - 1;
      AheadStart(two, contents, value);
      PassedStart(prev, all, hs, contents, pi, two, value, level);
      while l >= 0
        invariant -1 <= l < level && |prev| == |pi| == MAX_LEVEL + 1
        invariant q < |all| && prev[l + 1] == all[q] && hs[q] > l && Ahead(two, contents, value, q)
        invariant Passed(prev, all, hs, contents, pi, two, value, l + 1, level) && (l == -1 ==> q == pi[0])
      {
        var pr, node, cmp;
        pr, node, cmp, q := SearchLevel(prev[l + 1], l, value, two, q);
        StopsAt(l, value, q, two);
        AtIs(all, Nxt(hs, q, l));
        if node != null {
          if cmp == 0 {
            return prev, node, Nxt(hs, q, l), pi;
          }
        }
        PassedStep(prev, all, hs, contents, pi, two, value, l, level, pr, q);
        prev, pi := prev[l := pr], pi[l := q];
        l := l - 1;
      }
      PassedEnd(prev, all, hs, contents, pi, two, value, level);
      return prev, null, pi[0], pi;
    }

    /** `skiplist_set`; `h` is the height the new tower would get. */
    method Set(value: Value, h: nat)
      requires Valid() && 1 <= h <= MAX_LEVEL
      modifies this, all
      ensures Valid() && freed == old(freed) && contents == SetIn(two, old(contents), value)
      ensures hs == SetHeights(two, old(contents), old(hs), value, h)
      ensures forall n :: n in all ==> n in old(all) || fresh(n)
    {
      hide *;
      Opened(value);
      var prev, hit;
      ghost var j, pi;
      prev, hit, j, pi := FindGap(value);
      if hit != null {
        EqualPlace(two, contents, value, j);
        EqualHeights(two, contents, hs, value, h, j);
        Replace(hit, value, j);
      } else {
        FitsAt(two, contents, value, j);
        FitsHeights(two, contents, hs, value, h, j);
        AddNode(value, h, prev, j, pi);
      }
    }

    /** The search of `skiplist_remove`; `top` is the highest level on which it met something not less. */
    method FindStretch(key: Value) returns (prev: seq<SlNode?>, top: int, ghost pi: seq<nat>)
      requires Valid()
      ensures -1 <= top < level && |pi| == MAX_LEVEL + 1 && Bare(hs, pi, top, level)
      ensures Reached(prev, all, hs, contents, pi, key, 0, level)
    {
      hide *;
      Opened(key);
      prev := seq(MAX_LEVEL + 1, _ => null);
      prev := prev[level := head];
      pi := seq(MAX_LEVEL + 1, _ => 0);
      top := -1;
      ghost var q: nat := 0;
      var l: int := level - 1;
      ReachedStart(prev, all, hs, contents, pi, key, level);
      BareStart(hs, pi, level);
      while l >= 0
        invariant -1 <= l < level && |prev| == |pi| == MAX_LEVEL + 1 && -1 <= top < level
        invariant q < |all| && prev[l + 1] == all[q] && hs[q] > l && Ahead(false, contents, key, q)
        invariant Reached(prev, all, hs, contents, pi, key, l + 1, level)
        invariant Bare(hs, pi, if top == -1 then l else top, level) && (top == -1 || top > l)
      {
        var pr, node, cmp;
        pr, node, cmp, q := SearchLevel(prev[l + 1], l, key, false, q);
        StopsAt(l, key, q, false);
        AtIs(all, Nxt(hs, q, l));
        ReachedStep(prev, all, hs, contents, pi, key, l, level, pr, q);
        BareStep(hs, pi, l, level, q, top, node == null);
        if node != null {
          if top == -1 {
            top := l;
          }
        }
        prev, pi := prev[l := pr], pi[l := q];
        l := l - 1;
      }
    }

    /** The upper levels lead over the stretch, and the list loses the levels that are empty now. */
    method CutTowers(prev: seq<SlNode?>, top: int, ghost lo: Value, hi: Value, ghost p: nat, ghost r: nat,
                     ghost pi: seq<nat>)
      requires |all| == |hs| > r >= p && Distinct(all) && all[0] == head && hs[0] == MAX_LEVEL
      requires Standing(all, hs, contents) && Stretch(contents, lo, hi, p, r) && -1 <= top < level
      requires Tracks(prev, all, hs, pi, p, 0, level) && Trimmed(all, hs, LinksOf(all), p, r, top + 1)
      requires TopSoFar(Cut(hs, p, r), level, top)
      modifies this`level, all`next
      ensures Standing(all, hs, contents) && Trimmed(all, hs, LinksOf(all), p, r, if top <= 0 then top + 1 else 1)
      ensures TopLevel(Cut(hs, p, r), level)
    {
      hide *;
      CutHead(all, hs, p, r);
      var l := top;
      while l > 0
        invariant l <= top && (l >= 0 || l == top)
        invariant Standing(all, hs, contents) && Trimmed(all, hs, LinksOf(all), p, r, l + 1)
        invariant TopSoFar(Cut(hs, p, r), level, l)
      {
        TracksAt(prev, all, hs, pi, p, old(level), l);
        TrimmedAt(all, hs, LinksOf(all), p, r, l + 1, l);
        ghost var nx := LinksOf(all);
        var pre := prev[l];
        CutLevel(all, hs, contents, pre, l, lo, hi, p, r, pi[l]);
        TrimmedStep(all, hs, nx, LinksOf(all), p, r, pi[l], l);
        TrimmedAt(all, hs, LinksOf(all), p, r, l, l);
        TopStep(Cut(all, p, r), Cut(hs, p, r), LinksOf(all), level, l);
        HeadLeads(all, hs, contents, l);
        if head.next[l] == null && l + 1 == level {
          level := level - 1;
        }
        l := l - 1;
      }
      TopEnd(Cut(hs, p, r), level, l);
    }

    /** The loop of `skiplist_remove` on level 0: every node of the stretch is freed, none twice, and none is
        accessed afterwards. */
    method FreeRun(pre: SlNode, ghost lo: Value, hi: Value, ghost p: nat, ghost r: nat) returns (ret: nat)
      requires |all| == |hs| > r >= p && Distinct(all) && pre == all[p] && (forall i :: 0 <= i < |hs| ==> 1 <= hs[i])
      requires Standing(all, hs, contents) && Stretch(contents, lo, hi, p, r)
      requires LevelOk(all, hs, LinksOf(all), 0) && forall n :: n in all ==> n !in freed
      modifies all`next, all`prev, this`freed
      ensures ret == r - p && StandingGap(all, hs, contents, p, r + 1)
      ensures Redirected(old(LinksOf(all)), LinksOf(all), pre, 0, At(all, r + 1))
      ensures freed == old(freed) + Members(all, p + 1, r + 1)
    {
      hide *;
      ghost var nx := LinksOf(all);
      ghost var j := p + 1;
      ret := 0;
      GapStart(all, hs, contents, p);
      FirstNext(hs, p);
      RedirectedStart(all, hs, p, 0);
      RedirectedTo(all, nx, pre, 0, At(all, j));
      MembersNone(all, j);
      MembersApart(all, p, j, freed);
      AtIs(all, j);
      while Alive(pre, freed).next[0] != null && Compare(Alive(pre.next[0], freed).value, hi) <= 0
        invariant p < j <= |all| && ret == j - p - 1 && j <= r + 1
        invariant StandingGap(all, hs, contents, p, j) && Redirected(nx, LinksOf(all), pre, 0, At(all, j))
        invariant 0 < |pre.next| && pre.next[0] == At(all, j) && (pre.next[0] != null ==> pre.next[0] !in freed)
        invariant freed == old(freed) + Members(all, p + 1, j) && pre !in freed
        invariant forall i :: j <= i < |all| ==> all[i] !in freed
        decreases |all| - j
      {
        AtIs(all, j);
        GapValue(all, hs, contents, p, j);
        StretchEnd(contents, lo, hi, p, r, j);
        ghost var remove := pre.next[0];
        assert remove !in freed;
        FreeOne(all, hs, contents, nx, pre, p, j, freed);
        MembersStep(all, p + 1, j);
        MembersApart(all, p, j + 1, old(freed));
        ret := ret + 1;
        freed := freed + {remove};
        j := j + 1;
        RedirectedTo(all, nx, pre, 0, At(all, j));
        AtIs(all, j);
        if Alive(pre, freed).next[0] == null {
          break;
        }
      }
      AtIs(all, j);
      StretchBound(contents, lo, hi, p, r);
      GapSizes(all, hs, contents, p, j);
      if j < |all| {
        GapValue(all, hs, contents, p, j);
        StretchEnd(contents, lo, hi, p, r, j);
      }
    }

    /** The two loops after the search of `skiplist_remove`. */
    method CutStretch(prev: seq<SlNode?>, top: int, ghost lo: Value, hi: Value, ghost p: nat, ghost r: nat,
                      ghost pi: seq<nat>)
      returns (ret: nat)
      requires Valid() && -1 <= top < level && Bare(hs, pi, top, level) && pi[0] == p
      requires Tracks(prev, all, hs, pi, p, 0, level) && Stretch(contents, lo, hi, p, r)
      requires Trimmed(all, hs, LinksOf(all), p, r, top + 1) && TopSoFar(Cut(hs, p, r), level, top)
      modifies this, all
      ensures p <= r < old(|all|) == old(|contents|) + 1 && ret == r - p
      ensures Valid() && contents == old(contents)[..p] + old(contents)[r..]
      ensures all == Cut(old(all), p, r) && freed == old(freed) + Members(old(all), p + 1, r + 1)
      ensures r < |old(hs)| && hs == Cut(old(hs), p, r)
    {
      hide *;
      Parts();
      StandingIs(all, hs, contents);
      TrimmedAt(all, hs, LinksOf(all), p, r, top + 1, 0);
      TopLevelIs(hs, level);
      TracksAt(prev, all, hs, pi, p, level, 0);
      CutTowers(prev, top, lo, hi, p, r, pi);
      TrimmedBottom(all, hs, LinksOf(all), pi, p, r, top, old(level));
      ghost var nx := LinksOf(all);
      ret := FreeRun(prev[0], lo, hi, p, r);
      Bridge(all, hs, nx, LinksOf(all), p, r);
      CloseGap(p, r);
      length := length - ret;
      Assemble();
    }

    /** The chain without the stretch takes the place of the old one. */
    ghost method CloseGap(p: nat, r: nat)
      requires |all| == |hs| == |contents| + 1 && p <= r < |all| && Shape(all, hs, head)
      requires StandingGap(all, hs, contents, p, r + 1) && Ordered(two, contents)
      requires Levels(Cut(all, p, r), Cut(hs, p, r), LinksOf(all))
      modifies this`all, this`hs, this`contents
      ensures all == Cut(old(all), p, r) && hs == Cut(old(hs), p, r)
      ensures contents == old(contents)[..p] + old(contents)[r..]
      ensures Shape(all, hs, head) && Standing(all, hs, contents) && Levels(all, hs, LinksOf(all))
      ensures Ordered(two, contents)
      ensures forall n :: n in all ==> n in old(all) && n !in Members(old(all), p + 1, r + 1)
    {
      hide *;
      GapEnd(all, hs, contents, p, r);
      ShapeCut(all, hs, head, p, r);
      ShapeDistinct(all, hs, head);
      OrderedCut(two, contents, p, r);
      MembersCut(all, p, r);
      all, hs, contents := Cut(all, p, r), Cut(hs, p, r), contents[..p] + contents[r..];
      LinksCut(all, old(all));
      LevelsFrom(all, hs, LinksOf(old(all)), LinksOf(all));
    }

    /** `skiplist_remove`: the values of the closed interval go, in whichever order its ends are given. */
    method Remove(key1: Value, key2: Value) returns (ret: nat)
      requires Valid()
      modifies this, all
      ensures Valid() && forall n :: n in all ==> n in old(all)
      ensures contents == Outside(old(contents), Lower(key1, key2), Upper(key1, key2))
      ensures hs == CutHeights(old(contents), old(hs), Lower(key1, key2), Upper(key1, key2))
      ensures ret == |Interval(old(contents), Lower(key1, key2), Upper(key1, key2))|
      ensures freed == old(freed) + (set n | n in old(all) && n !in all)
    {
      hide *;
      var lo, hi := key1, key2;
      if Compare(key1, key2) > 0 {
        lo, hi := key2, key1;
      }
      EndsAre(key1, key2, lo, hi);
      Parts();
      Opened(lo);
      var prev, top;
      ghost var pi;
      prev, top, pi := FindStretch(lo);
      ghost var p, r := pi[0], UpTo(contents, hi);
      ReachedBottom(prev, all, hs, contents, pi, lo, hi, level);
      ReachedTracks(prev, all, hs, contents, pi, lo, hi, r, level);
      StretchAt(contents, lo, hi, p, r);
      CutHeightsIs(contents, hs, lo, hi, p, r);
      TrimmedStart(prev, all, hs, LinksOf(all), pi, p, r, top, level);
      TopStart(hs, pi, p, r, top, level);
      MembersCut(all, p, r);
      ret := CutStretch(prev, top, lo, hi, p, r, pi);
    }

    /** `skiplist_clear`: every node but the head is freed, after its link has been read. */
    method Clear()
      requires Valid()
      modifies this, all
      ensures Valid() && contents == [] && all == [head] && hs == [MAX_LEVEL]
      ensures freed == old(freed) + (set n | n in old(all) && n != head)
    {
      hide *;
      Parts();
      FreeAll();
      length, level := 0, 1;
      head.value, head.prev, head.next := EMPTY_VALUE, null, seq(MAX_LEVEL, _ => null);
      all, hs, contents := [head], [MAX_LEVEL], [];
      EmptyValid();
    }

    method FreeAll()
      requires Valid()
      modifies this`freed
      ensures freed == old(freed) + (set n | n in all && n != head)
    {
      hide *;
      Parts();
      ghost var j := 1;
      Follow(0, 0);
      FirstNext(hs, 0);
      var i := head.next[0];
      MembersNone(all, 1);
      while i != null
        invariant 1 <= j <= |all| && i == At(all, j)
        invariant freed == old(freed) + Members(all, 1, j)
        decreases |all| - j
      {
        AtIs(all, j);
        MembersBehind(all, 1, j);
        FollowFirst(j);
        assert i !in freed;
        var next := Alive(i, freed).next[0];
        MembersStep(all, 1, j);
        freed := freed + {i};
        i := next;
        j := j + 1;
      }
      AtIs(all, j);
      MembersAll(all);
    }

    /** The level-0 link of place `j`, which freeing other nodes does not touch. */
    lemma FollowFirst(j: nat)
      requires Shape(all, hs, head) && Heights(all, hs) && Levels(all, hs, LinksOf(all)) && j < |all|
      ensures all[j].next != [] && all[j].next[0] == At(all, j + 1)
    {
      FirstNext(hs, j);
      assert LevelOk(all, hs, LinksOf(all), 0);
      assert LinkOk(all, hs, LinksOf(all), 0, j);
    }

    lemma EmptyValid()
      requires all == [head] && hs == [MAX_LEVEL] && contents == [] && head.next == seq(MAX_LEVEL, _ => null)
      requires length == 0 && level == 1 && head !in freed
      ensures Valid()
    {
      Empty();
    }

    /** Forward from `node`, while the values do not exceed `hi`. */
    method CollectUp(data: Slice<Value>, from: SlNode?, hi: Value, limit: int, ghost s: nat, ghost r: nat)
      returns (ghost out: seq<Value>)
      requires Valid() && s <= r <= |contents| && from == At(all, s + 1) && Ends(contents, hi, r)
      requires data.Valid() && data.pos + data.len + |contents| < LONG_MAX
      modifies data, data.data, data.data.data
      ensures Valid() && data.Valid() && data.View() == old(data.View()) + out
      ensures out == First(contents[s..r], limit)
    {
      hide *;
      Opened(hi);
      var node, len := from, 0;
      ghost var j := s;
      out := [];
      NoMore(data.View());
      while node != null && Compare(node.value, hi) <= 0 && len < limit
        invariant Valid() && s <= j <= r && node == At(all, j + 1) && len == j - s && (len == 0 || len <= limit)
        invariant out == contents[s..j]
        invariant data.Valid() && data.View() == old(data.View()) + out
        invariant data.pos + data.len + |contents| - (j - s) < LONG_MAX
        invariant data.data == old(data.data) || (fresh(data.data) && fresh(data.data.data))
        decreases |contents| - j
      {
        AtIs(all, j + 1);
        StandsAt(j + 1);
        EndsAt(contents, hi, r, j);
        MoreOut(old(data.View()), out, contents, s, j);
        Emit(data, node.value);
        out := out + [contents[j]];
        len := len + 1;
        node := node.next[0];
        j := j + 1;
      }
      AtIs(all, j + 1);
      if j < |contents| {
        StandsAt(j + 1);
        EndsAt(contents, hi, r, j);
      }
      FirstIs(contents, s, j, r, limit);
    }

    /** Backward from place `e`, while the values are not below `lo`. */
    method CollectDown(data: Slice<Value>, from: SlNode, lo: Value, limit: int, ghost f: nat, ghost e: nat)
      returns (ghost out: seq<Value>)
      requires Valid() && f <= e <= |contents| && e < |all| && from == all[e] && Begins(contents, lo, f)
      requires data.Valid() && data.pos + data.len + |contents| < LONG_MAX
      modifies data, data.data, data.data.data
      ensures Valid() && data.Valid() && data.View() == old(data.View()) + out
      ensures out == First(Reverse(contents[f..e]), limit)
    {
      hide *;
      Opened(lo);
      var node, len := from, 0;
      ghost var j := e;
      out := [];
      NoMore(data.View());
      BackStart(contents, e);
      HeadOnly(j);
      while node != head && Compare(node.value, lo) >= 0 && len < limit
        invariant Valid() && f <= j <= e && node == all[j] && len == e - j && (len == 0 || len <= limit)
        invariant (node == head <==> j == 0) && out == Reverse(contents[j..e])
        invariant data.Valid() && data.View() == old(data.View()) + out
        invariant data.pos + data.len + |contents| - (e - j) < LONG_MAX
        invariant data.data == old(data.data) || (fresh(data.data) && fresh(data.data.data))
        decreases j
      {
        StandsAt(j);
        BeginsAt(contents, lo, f, j - 1);
        BackOut(old(data.View()), out, contents, j, e);
        Emit(data, node.value);
        out := out + [contents[j - 1]];
        len := len + 1;
        node := node.prev;
        j := j - 1;
        HeadOnly(j);
      }
      if j > 0 {
        StandsAt(j);
        BeginsAt(contents, lo, f, j - 1);
      }
      FirstBack(contents, f, j, e, limit);
    }

    lemma HeadOnly(j: nat)
      requires Valid() && j < |all|
      ensures all[j] == head <==> j == 0
    {
    }

    lemma StandsAt(j: nat)
      requires Valid() && 1 <= j < |all|
      ensures |all| == |contents| + 1 && all[j].value == contents[j - 1] && all[j].prev == all[j - 1]
      ensures all[j].next != [] && all[j].next[0] == At(all, j + 1)
    {
      FollowFirst(j);
    }

    /** `skiplist_range`: at most `limit` values of the interval, downward if `key1` is the greater end. It is the
        interval from its first value on exactly when the search stops at the first of the values that compare
        equal to `key1`. */
    method Range(data: Slice<Value>, key1: Value, key2: Value, limit: int) returns (ghost out: seq<Value>)
      requires Valid() && data.Valid() && data.pos + data.len + |contents| < LONG_MAX
      modifies data, data.data, data.data.data
      ensures Valid() && data.Valid() && data.View() == old(data.View()) + out
      ensures out == Listing(hs, contents, key1, key2, limit)
      ensures out == First(Wanted(contents, key1, key2), limit) <==> limit <= 0 || StartsRight(hs, contents, key1, key2)
    {
      hide *;
      Opened(key1);
      var node;
      ghost var at;
      if Compare(key1, key2) > 0 {
        node, at := FastGet(key1, true);
        ghost var f := BelowOf(contents, key2);
        DownPlace(hs, contents, key1, key2, at, f);
        AtIs(all, at);
        out := CollectDown(data, node, key2, limit, f, at);
        DownExact(two, hs, contents, key1, key2, at, limit);
        ListingDown(hs, contents, key1, key2, limit, at);
      } else {
        node, at := FastGet(key1, false);
        ghost var r := UpTo(contents, key2);
        UpPlace(hs, contents, key1, key2, at, r);
        out := CollectUp(data, node, key2, limit, at - 1, r);
        UpExact(two, hs, contents, key1, key2, at, limit);
        ListingUp(hs, contents, key1, key2, limit, at);
      }
    }

    lemma Assemble()
      requires Shape(all, hs, head) && Standing(all, hs, contents) && Levels(all, hs, LinksOf(all))
      requires Ordered(two, contents) && length == |contents| && TopLevel(hs, level)
      requires forall n :: n in all ==> n !in freed
      ensures Valid()
    {
    }
  }
}
