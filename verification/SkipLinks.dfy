/** What the searches of a skip list find, and what inserting and removing does to its links. */
module SkipLinks {
  import opened Values
  import opened Slices
  import opened SkipShape
  import opened SkipSpec

  const MAX_LEVEL := 32

  /** The chain starts at the head, no node is in it twice, and every tower has a legal height. */
  ghost predicate Shape(all: seq<SlNode>, hs: seq<nat>, head: SlNode) {
    && |all| == |hs| > 0 && all[0] == head && Distinct(all) && hs[0] == MAX_LEVEL
    && forall i :: 0 <= i < |hs| ==> 1 <= hs[i] <= MAX_LEVEL
  }

  /** `level` is the height of the tallest tower, or 1. */
  ghost predicate TopLevel(hs: seq<nat>, level: int) {
    && 1 <= level <= MAX_LEVEL && (forall i :: 1 <= i < |hs| ==> hs[i] <= level)
    && (level == 1 || exists i :: 1 <= i < |hs| && hs[i] == level)
  }

  ghost function LinksOf(all: seq<SlNode>): Links
    reads all
  {
    map n | n in all :: n.next
  }

  ghost predicate Heights(all: seq<SlNode>, hs: seq<nat>)
    reads all
  {
    |all| == |hs| && forall i :: 0 <= i < |all| ==> |all[i].next| == hs[i]
  }

  ghost predicate Levels(all: seq<SlNode>, hs: seq<nat>, nx: Links) {
    forall l :: 0 <= l < MAX_LEVEL ==> LevelOk(all, hs, nx, l)
  }

  /** At level 0 `prev` leads back where `next` came from. */
  ghost predicate Backward(all: seq<SlNode>)
    reads all
  {
    forall i {:trigger all[i].prev} :: 0 < i < |all| ==> all[i].prev == all[i - 1]
  }

  ghost predicate Carries(all: seq<SlNode>, vs: seq<Value>)
    reads all
  {
    |all| == |vs| + 1 && forall i :: 0 <= i < |vs| ==> all[i + 1].value == vs[i]
  }

  /** Place `q` of the chain lies in front of all that is not less than `v`. */
  ghost predicate Ahead(both: bool, vs: seq<Value>, v: Value, q: int) {
    0 <= q <= |vs| && (q == 0 || Cmp(both, vs[q - 1], v) < 0)
  }

  /** The search on level `l` ends at place `q`: the next tower is not less than `v`. */
  ghost predicate Stops(both: bool, hs: seq<nat>, vs: seq<Value>, v: Value, l: nat, q: nat) {
    && |hs| == |vs| + 1 && Ahead(both, vs, v, q) && hs[q] > l
    && (Nxt(hs, q, l) < |hs| ==> Cmp(both, vs[Nxt(hs, q, l) - 1], v) >= 0)
  }

  // ---------------------------------------------------------------- what a search finds

  ghost predicate EqualAt(vs: seq<Value>, key: Value, i: int) {
    1 <= i <= |vs| && Compare(vs[i - 1], key) == 0
  }

  /** No value that compares equal has a tower above `h`. */
  ghost predicate NoneAbove(hs: seq<nat>, vs: seq<Value>, key: Value, h: int) {
    |hs| == |vs| + 1 && forall i :: EqualAt(vs, key, i) ==> hs[i] <= h
  }

  /** Of the values that compare equal to `key`, the one at `j` has the tallest tower, and is the first such. */
  ghost predicate Tallest(hs: seq<nat>, vs: seq<Value>, key: Value, j: int) {
    && |hs| == |vs| + 1 && EqualAt(vs, key, j)
    && forall i :: EqualAt(vs, key, i) ==> hs[i] <= hs[j] && (i < j ==> hs[i] < hs[j])
  }

  ghost predicate KeysAscend(vs: seq<Value>) {
    forall i, j :: 0 <= i <= j < |vs| ==> vs[i].key <= vs[j].key
  }

  lemma OrderedKeys(two: bool, vs: seq<Value>)
    requires Ordered(two, vs)
    ensures KeysAscend(vs)
  {
    forall i, j | 0 <= i <= j < |vs|
      ensures vs[i].key <= vs[j].key
    {
      assert i < j ==> Cmp(two, vs[i], vs[j]) < 0;
    }
  }

  /** The search on level `l` stops at `q` in front of a greater value or at the end. */
  ghost predicate Misses(hs: seq<nat>, vs: seq<Value>, key: Value, l: nat, q: nat) {
    && Stops(false, hs, vs, key, l, q)
    && (Nxt(hs, q, l) < |hs| ==> Compare(vs[Nxt(hs, q, l) - 1], key) > 0)
  }

  lemma {:induction false} MissesIs(hs: seq<nat>, vs: seq<Value>, key: Value, l: nat, q: nat)
    requires Stops(false, hs, vs, key, l, q)
    requires Nxt(hs, q, l) < |hs| ==> Compare(vs[Nxt(hs, q, l) - 1], key) != 0
    ensures Misses(hs, vs, key, l, q)
  {
  }

  /** A level that stops in front of a greater value or at its end holds no equal one. */
  lemma Missed(hs: seq<nat>, vs: seq<Value>, key: Value, l: nat, q: nat)
    requires KeysAscend(vs) && Misses(hs, vs, key, l, q)
    ensures NoneAbove(hs, vs, key, l)
  {
  }

  lemma {:induction false} Found(hs: seq<nat>, vs: seq<Value>, key: Value, l: nat, q: nat)
    requires KeysAscend(vs) && Stops(false, hs, vs, key, l, q) && NoneAbove(hs, vs, key, l + 1)
    requires Nxt(hs, q, l) < |hs| && Compare(vs[Nxt(hs, q, l) - 1], key) == 0
    ensures Tallest(hs, vs, key, Nxt(hs, q, l))
  {
    assert EqualAt(vs, key, Nxt(hs, q, l));
  }

  /** `p` values are less than `key` and none is equal. */
  ghost predicate Absent(vs: seq<Value>, key: Value, p: nat) {
    && p <= |vs| && (forall i :: 0 <= i < p ==> Compare(vs[i], key) < 0)
    && (forall i :: p <= i < |vs| ==> Compare(vs[i], key) > 0)
  }

  lemma {:induction false} NotThere(hs: seq<nat>, vs: seq<Value>, key: Value, q: nat)
    requires KeysAscend(vs) && Misses(hs, vs, key, 0, q) && (forall i :: 0 <= i < |hs| ==> 1 <= hs[i])
    ensures Absent(vs, key, q) && Nxt(hs, q, 0) == q + 1
  {
    NxtIs(hs, q, 0, q + 1);
  }

  lemma AllBelow(hs: seq<nat>, vs: seq<Value>, key: Value, level: int)
    requires |hs| == |vs| + 1 && TopLevel(hs, level)
    ensures NoneAbove(hs, vs, key, level)
  {
  }

  // ---------------------------------------------------------------- linking a node in

  /** `value` belongs between the first `p` values and the rest. */
  ghost predicate Fits(both: bool, vs: seq<Value>, value: Value, p: nat) {
    && p <= |vs| && (forall i :: 0 <= i < p ==> Cmp(both, vs[i], value) < 0)
    && (forall i :: p <= i < |vs| ==> Cmp(both, vs[i], value) > 0)
  }

  ghost function Insert(vs: seq<Value>, p: nat, value: Value): seq<Value>
    requires p <= |vs|
  {
    vs[..p] + [value] + vs[p..]
  }

  /** The new node is linked in on the levels below `l`. */
  ghost predicate Partly(all: seq<SlNode>, hs: seq<nat>, nx: Links, p: nat, h: nat, node: SlNode, l: nat) {
    && p < |all| == |hs|
    && (forall k :: 0 <= k < l && k < MAX_LEVEL ==> LevelOk(Put(all, p, node), Put(hs, p, h), nx, k))
    && (forall k :: l <= k < MAX_LEVEL ==> LevelOk(all, hs, nx, k))
  }

  /** `nx'` is `nx` with `node` put behind `pr` on level `l`. */
  ghost predicate Relinked(nx: Links, nx': Links, pr: SlNode, node: SlNode, l: nat) {
    && pr in nx && node in nx && l < |nx[pr]| && l < |nx[node]|
    && nx' == nx[node := nx[node][l := nx[pr][l]]][pr := nx[pr][l := node]]
  }

  lemma RelinkedColumn(all: seq<SlNode>, nx: Links, nx': Links, pr: SlNode, node: SlNode, l: nat, k: nat)
    requires Relinked(nx, nx', pr, node, l) && pr != node && k != l
    ensures SameColumn(all, nx, nx', k)
  {
  }

  lemma PartlyStep(all: seq<SlNode>, hs: seq<nat>, nx: Links, nx': Links, p: nat, q: nat, h: nat, node: SlNode, l: nat)
    requires Partly(all, hs, nx, p, h, node, l) && l < MAX_LEVEL && l < h && Straddles(hs, q, p, l)
    requires Relinked(nx, nx', all[q], node, l) && node !in all && Distinct(all)
    ensures Partly(all, hs, nx', p, h, node, l + 1)
  {
    assert LevelOk(all, hs, nx, l);
    InsertLevel(all, hs, nx, nx', p, q, h, l, node, nx[all[q]][l]);
    forall k | 0 <= k < MAX_LEVEL && k != l
      ensures if k < l then LevelOk(Put(all, p, node), Put(hs, p, h), nx', k) else LevelOk(all, hs, nx', k)
    {
      RelinkedColumn(all, nx, nx', all[q], node, l, k);
      RelinkedColumn(Put(all, p, node), nx, nx', all[q], node, l, k);
      if k < l {
        OtherLevel(Put(all, p, node), Put(hs, p, h), nx, nx', k);
      } else {
        OtherLevel(all, hs, nx, nx', k);
      }
    }
  }

  lemma PartlyStart(all: seq<SlNode>, hs: seq<nat>, nx: Links, nx': Links, p: nat, h: nat, node: SlNode)
    requires Levels(all, hs, nx) && p < |all| == |hs| && forall n :: n in all && n in nx ==> n in nx' && nx'[n] == nx[n]
    ensures Partly(all, hs, nx', p, h, node, 0)
  {
    forall k | 0 <= k < MAX_LEVEL
      ensures LevelOk(all, hs, nx', k)
    {
      OtherLevel(all, hs, nx, nx', k);
    }
  }

  lemma PartlyEnd(all: seq<SlNode>, hs: seq<nat>, nx: Links, p: nat, h: nat, node: SlNode)
    requires Partly(all, hs, nx, p, h, node, h)
    ensures Levels(Put(all, p, node), Put(hs, p, h), nx)
  {
    forall k | 0 <= k < MAX_LEVEL
      ensures LevelOk(Put(all, p, node), Put(hs, p, h), nx, k)
    {
      if k >= h { PassLevel(all, hs, nx, p, h, k, node); }
    }
  }

  /** The new chain but for its links: who stands where, with what value, tower and `prev`. */
  ghost predicate Standing(chain: seq<SlNode>, hs: seq<nat>, vs: seq<Value>)
    reads chain
  {
    Carries(chain, vs) && Backward(chain) && Heights(chain, hs)
  }

  /** `node->next[l] = pr->next[l]; pr->next[l] = node;` */
  method LinkLevel(ghost chain: seq<SlNode>, ghost hs: seq<nat>, ghost vs: seq<Value>, pr: SlNode, node: SlNode, l: nat)
    requires pr in chain && node in chain && pr != node && l < |pr.next| && l < |node.next|
    requires Standing(chain, hs, vs)
    modifies pr`next, node`next
    ensures Standing(chain, hs, vs) && Relinked(old(LinksOf(chain)), LinksOf(chain), pr, node, l)
  {
    node.next := node.next[l := pr.next[l]];
    pr.next := pr.next[l := node];
  }

  /** `node->next[l] = NULL; sl->head->next[l] = node;` */
  method LinkTop(ghost chain: seq<SlNode>, ghost hs: seq<nat>, ghost vs: seq<Value>, head: SlNode, node: SlNode, l: nat)
    requires head in chain && node in chain && head != node && l < |head.next| && l < |node.next|
    requires Standing(chain, hs, vs) && head.next[l] == null
    modifies head`next, node`next
    ensures Standing(chain, hs, vs) && Relinked(old(LinksOf(chain)), LinksOf(chain), head, node, l)
  {
    node.next := node.next[l := null];
    head.next := head.next[l := node];
  }

  /** `prev[k]` is the last tower on level `k` in front of the gap behind place `p`. */
  ghost predicate Tracks(prev: seq<SlNode?>, all: seq<SlNode>, hs: seq<nat>, pi: seq<nat>, p: nat, lo: nat, hi: nat) {
    && |prev| == |pi| == MAX_LEVEL + 1 && hi <= MAX_LEVEL && |all| == |hs|
    && forall k :: lo <= k < hi ==> pi[k] < |all| && prev[k] == all[pi[k]] && Straddles(hs, pi[k], p, k)
  }

  lemma TracksAt(prev: seq<SlNode?>, all: seq<SlNode>, hs: seq<nat>, pi: seq<nat>, p: nat, hi: nat, k: nat)
    requires Tracks(prev, all, hs, pi, p, 0, hi) && k < hi
    ensures |prev| == |pi| == MAX_LEVEL + 1 && hi <= MAX_LEVEL && pi[k] < |all| == |hs| && prev[k] == all[pi[k]]
    ensures Straddles(hs, pi[k], p, k)
    ensures hs[pi[k]] > k && pi[k] <= p < |hs|
  {
  }

  /** Above the tallest tower only the head is left. */
  lemma {:induction false} TopStraddles(hs: seq<nat>, p: nat, level: int, l: nat)
    requires TopLevel(hs, level) && p < |hs| && level <= l < hs[0]
    ensures Straddles(hs, 0, p, l) && Nxt(hs, 0, l) == |hs|
  {
    NxtIs(hs, 0, l, |hs|);
  }

  /** The sizes behind `Standing` and `Partly`. */
  lemma StandingAt(all: seq<SlNode>, hs: seq<nat>, vs: seq<Value>, p: nat, h: nat, node: SlNode, i: nat, l: nat)
    requires |all| == |hs| && i <= p < |all| && Standing(Put(all, p, node), Put(hs, p, h), vs) && l < hs[i] && l < h
    ensures all[i] in Put(all, p, node) && l < |all[i].next| && node in Put(all, p, node) && l < |node.next|
  {
    assert Put(all, p, node)[i] == all[i] && Put(hs, p, h)[i] == hs[i];
  }

  lemma {:induction false} HeadEmpty(all: seq<SlNode>, hs: seq<nat>, chain: seq<SlNode>, p: nat, h: nat, node: SlNode,
                                     l: nat)
    requires Partly(all, hs, LinksOf(chain), p, h, node, l) && l < MAX_LEVEL && hs[0] > l && Nxt(hs, 0, l) == |hs|
    ensures l < |all[0].next| && all[0].next[l] == null
  {
    assert LevelOk(all, hs, LinksOf(chain), l);
    assert LinkOk(all, hs, LinksOf(chain), l, 0);
  }

  /** Every node of the chain leads back to the one in front of it, the gap behind `p` aside. */
  ghost predicate BackwardAround(all: seq<SlNode>, p: nat, node: SlNode)
    reads all, node
  {
    && p < |all| && node.prev == all[p] && (p + 1 < |all| ==> all[p + 1].prev == node)
    && (forall i {:trigger all[i].prev} :: 0 < i < |all| && i != p + 1 ==> all[i].prev == all[i - 1])
  }

  lemma BackwardPut(all: seq<SlNode>, p: nat, node: SlNode)
    requires BackwardAround(all, p, node)
    ensures Backward(Put(all, p, node))
  {
    var t := Put(all, p, node);
    forall i {:trigger t[i].prev} | 0 < i < |t|
      ensures t[i].prev == t[i - 1]
    {
      if i <= p {
        assert t[i] == all[i] && t[i - 1] == all[i - 1];
      } else if i > p + 2 {
        assert t[i] == all[i - 1] && t[i - 1] == all[i - 2];
      }
    }
  }

  lemma CarriesPut(all: seq<SlNode>, vs: seq<Value>, p: nat, node: SlNode)
    requires Carries(all, vs) && p < |all|
    ensures Carries(Put(all, p, node), Insert(vs, p, node.value))
  {
  }

  lemma HeightsPut(all: seq<SlNode>, hs: seq<nat>, p: nat, node: SlNode, h: nat)
    requires Heights(all, hs) && p < |all| && |node.next| == h
    ensures Heights(Put(all, p, node), Put(hs, p, h))
  {
  }

  /** Level 0 reaches every node. */
  lemma {:induction false} FirstNext(hs: seq<nat>, p: nat)
    requires p < |hs| && forall i :: 0 <= i < |hs| ==> 1 <= hs[i]
    ensures Nxt(hs, p, 0) == p + 1
  {
    NxtIs(hs, p, 0, p + 1);
  }

  lemma StandingIs(chain: seq<SlNode>, hs: seq<nat>, vs: seq<Value>)
    requires Carries(chain, vs) && Backward(chain) && Heights(chain, hs)
    ensures Standing(chain, hs, vs)
  {
  }

  lemma LinksPut(all: seq<SlNode>, p: nat, node: SlNode)
    requires p < |all|
    ensures forall n :: n in all && n in LinksOf(all) ==>
      n in LinksOf(Put(all, p, node)) && LinksOf(Put(all, p, node))[n] == LinksOf(all)[n]
  {
    assert forall n :: n in all ==> n in Put(all, p, node);
  }

  // ---------------------------------------------------------------- cutting a stretch out

  /** How many values do not exceed `hi`. */
  ghost function UpTo(vs: seq<Value>, hi: Value): (r: nat)
    ensures r <= |vs| && (r < |vs| ==> Compare(vs[r], hi) > 0) && (r > 0 ==> Compare(vs[r - 1], hi) <= 0)
  {
    if vs == [] || Compare(vs[|vs| - 1], hi) <= 0 then |vs| else UpTo(vs[..|vs| - 1], hi)
  }

  /** The places behind `p` up to `r` are those of the interval. */
  ghost predicate Stretch(vs: seq<Value>, lo: Value, hi: Value, p: nat, r: nat) {
    && p <= r <= |vs| && (forall i :: 0 <= i < p ==> Compare(vs[i], lo) < 0)
    && (forall i :: p <= i < |vs| ==> Compare(vs[i], lo) >= 0)
    && (forall i :: 0 <= i < r ==> Compare(vs[i], hi) <= 0) && (forall i :: r <= i < |vs| ==> Compare(vs[i], hi) > 0)
  }

  lemma {:induction false} StretchAt(vs: seq<Value>, lo: Value, hi: Value, p: nat, r: nat)
    requires Stretch(vs, lo, hi, p, r)
    ensures p <= r <= |vs| && Interval(vs, lo, hi) == vs[p..r] && Outside(vs, lo, hi) == vs[..p] + vs[r..]
  {
    IntervalAt(vs, lo, hi, p, r);
  }

  /** On the levels from `l` on the stretch is gone. */
  ghost predicate Trimmed(all: seq<SlNode>, hs: seq<nat>, nx: Links, p: nat, r: nat, l: nat) {
    && p <= r < |all| == |hs|
    && (forall k :: l <= k < MAX_LEVEL ==> LevelOk(Cut(all, p, r), Cut(hs, p, r), nx, k))
    && (forall k :: 0 <= k < l && k < MAX_LEVEL ==> LevelOk(all, hs, nx, k))
  }

  /** Only the link of `pr` on level `l` has changed; it leads to `to`. */
  ghost predicate Redirected(nx: Links, nx': Links, pr: SlNode, l: nat, to: SlNode?) {
    pr in nx && l < |nx[pr]| && nx' == nx[pr := nx[pr][l := to]]
  }

  lemma {:induction false} TrimmedStep(all: seq<SlNode>, hs: seq<nat>, nx: Links, nx': Links, p: nat, r: nat, q: nat,
                                       l: nat)
    requires Trimmed(all, hs, nx, p, r, l + 1) && l < MAX_LEVEL && Straddles(hs, q, p, l) && Distinct(all)
    requires Redirected(nx, nx', all[q], l, At(all, Nxt(hs, r, l)))
    ensures Trimmed(all, hs, nx', p, r, l)
  {
    RemoveLevel(all, hs, nx, nx', p, r, q, l);
    forall k | 0 <= k < MAX_LEVEL && k != l
      ensures if k < l then LevelOk(all, hs, nx', k) else LevelOk(Cut(all, p, r), Cut(hs, p, r), nx', k)
    {
      if k < l {
        OtherLevel(all, hs, nx, nx', k);
      } else {
        OtherLevel(Cut(all, p, r), Cut(hs, p, r), nx, nx', k);
      }
    }
  }

  /** A level without a tower in the stretch is right already. */
  lemma {:induction false} TrimmedFree(all: seq<SlNode>, hs: seq<nat>, nx: Links, p: nat, r: nat, q: nat, l: nat)
    requires LevelOk(all, hs, nx, l) && p <= r < |hs| && Straddles(hs, q, p, l) && Nxt(hs, q, l) > r
    ensures LevelOk(Cut(all, p, r), Cut(hs, p, r), nx, l)
  {
    NoTowers(hs, q, p, r, l);
    assert LinkOk(all, hs, nx, l, q);
    RemoveLevel(all, hs, nx, nx, p, r, q, l);
  }

  /** What the search for removal has found: on the levels above `top` nothing follows. */
  ghost predicate Bare(hs: seq<nat>, pi: seq<nat>, top: int, level: int) {
    && |pi| == MAX_LEVEL + 1 && level <= MAX_LEVEL
    && forall k :: top < k < level ==> k >= 0 && pi[k] < |hs| && Nxt(hs, pi[k], k) == |hs|
  }

  lemma TrimmedStart(prev: seq<SlNode?>, all: seq<SlNode>, hs: seq<nat>, nx: Links, pi: seq<nat>, p: nat, r: nat,
                     top: int, level: nat)
    requires Bare(hs, pi, top, level) && -1 <= top < level && p <= r < |all| == |hs|
    requires Levels(all, hs, nx) && Tracks(prev, all, hs, pi, p, 0, level) && TopLevel(hs, level) && hs[0] == MAX_LEVEL
    ensures Trimmed(all, hs, nx, p, r, top + 1)
  {
    forall k | top < k < MAX_LEVEL
      ensures LevelOk(Cut(all, p, r), Cut(hs, p, r), nx, k)
    {
      if k < level {
        TrimmedFree(all, hs, nx, p, r, pi[k], k);
      } else {
        TopStraddles(hs, p, level, k);
        TrimmedFree(all, hs, nx, p, r, 0, k);
      }
    }
  }

  /** `level` so far, with the levels above `l` cut: either still the next to look at, or final. */
  ghost predicate TopSoFar(hs: seq<nat>, level: int, l: int) {
    && 1 <= level <= MAX_LEVEL && (forall i :: 1 <= i < |hs| ==> hs[i] <= level)
    && (level == l + 1 || level == 1 || exists i :: 1 <= i < |hs| && hs[i] == level)
  }

  lemma TopStart(hs: seq<nat>, pi: seq<nat>, p: nat, r: nat, top: int, level: int)
    requires TopLevel(hs, level) && Bare(hs, pi, top, level) && -1 <= top < level && p <= r < |hs|
    requires forall k :: 0 <= k < level ==> pi[k] <= p
    ensures TopSoFar(Cut(hs, p, r), level, top)
  {
    var t := Cut(hs, p, r);
    forall i | 1 <= i < |t|
      ensures t[i] <= level
    {
      assert t[i] == if i <= p then hs[i] else hs[i + (r - p)];
    }
    if level > 1 && level != top + 1 {
      var i :| 1 <= i < |hs| && hs[i] == level;
      assert Reaches(hs, pi[level - 1], level - 1, |hs|);
      assert i <= p && t[i] == hs[i];
    }
  }

  lemma TopStep(all: seq<SlNode>, hs: seq<nat>, nx: Links, level: int, l: nat)
    requires TopSoFar(hs, level, l) && LevelOk(all, hs, nx, l) && 0 < l && |hs| > 0 && hs[0] > l
    ensures LeadsTo(nx, all[0], l, null) && l + 1 == level ==> TopSoFar(hs, level - 1, l - 1)
    ensures !(LeadsTo(nx, all[0], l, null) && l + 1 == level) ==> TopSoFar(hs, level, l - 1)
  {
    assert LinkOk(all, hs, nx, l, 0);
    var j := Nxt(hs, 0, l);
    if j < |hs| && l + 1 == level { assert hs[j] == level; }
  }

  /** A link of `q` on level `l` may lead to `j` while the stretch up to `r` is skipped. */
  ghost predicate Jumps(hs: seq<nat>, q: nat, r: nat, l: nat, j: nat) {
    q < j <= |hs| && (j < |hs| ==> hs[j] > l) && forall k :: r < k < j ==> hs[k] <= l
  }

  lemma {:induction false} JumpStart(hs: seq<nat>, q: nat, r: nat, l: nat)
    requires q <= r < |hs|
    ensures Jumps(hs, q, r, l, Nxt(hs, q, l))
  {
  }

  lemma {:induction false} JumpStep(hs: seq<nat>, q: nat, r: nat, l: nat, j: nat)
    requires Jumps(hs, q, r, l, j) && j <= r < |hs|
    ensures Jumps(hs, q, r, l, Nxt(hs, j, l)) && j < Nxt(hs, j, l)
  {
  }

  lemma {:induction false} JumpEnd(hs: seq<nat>, q: nat, r: nat, l: nat, j: nat)
    requires Jumps(hs, q, r, l, j) && r < |hs| && (j == |hs| || j > r)
    ensures Nxt(hs, r, l) == j
  {
    NxtIs(hs, r, l, j);
  }

  lemma JumpAt(hs: seq<nat>, q: nat, r: nat, l: nat, j: nat)
    requires Jumps(hs, q, r, l, j)
    ensures q < j <= |hs| && (j < |hs| ==> hs[j] > l)
  {
  }

  /** `pre->next[l] = pre->next[l]->next[l];` */
  method SkipOne(ghost all: seq<SlNode>, ghost hs: seq<nat>, ghost vs: seq<Value>, ghost nx: Links, pr: SlNode, l: nat,
      ghost q: nat, ghost j: nat)
    requires |all| == |hs| && LevelOk(all, hs, nx, l) && q < j < |all| && pr == all[q] && hs[j] > l && Distinct(all)
    requires Standing(all, hs, vs) && Redirected(nx, LinksOf(all), pr, l, all[j])
    modifies pr`next
    ensures Standing(all, hs, vs) && Redirected(nx, LinksOf(all), pr, l, At(all, Nxt(hs, j, l)))
  {
    assert LinkOk(all, hs, nx, l, j);
    assert LinksOf(all)[pr] == pr.next && LinksOf(all)[all[j]] == all[j].next;
    ghost var to := At(all, Nxt(hs, j, l));
    assert all[j].next == nx[all[j]] && all[j].next[l] == to;
    assert nx[pr][l := all[j]][l := to] == nx[pr][l := to];
    pr.next := pr.next[l := pr.next[l].next[l]];
    assert LinksOf(all) == old(LinksOf(all))[pr := pr.next];
  }

  /** What the link of `pr` on level `l` is now. */
  lemma RedirectedTo(all: seq<SlNode>, nx: Links, pr: SlNode, l: nat, to: SlNode?)
    requires pr in all && Redirected(nx, LinksOf(all), pr, l, to)
    ensures l < |pr.next| && pr.next[l] == to
  {
    assert LinksOf(all)[pr] == pr.next;
  }

  lemma {:induction false} RedirectedStart(all: seq<SlNode>, hs: seq<nat>, q: nat, l: nat)
    requires |all| == |hs| && LevelOk(all, hs, LinksOf(all), l) && q < |all| && hs[q] > l
    ensures Redirected(LinksOf(all), LinksOf(all), all[q], l, At(all, Nxt(hs, q, l)))
  {
    assert LinkOk(all, hs, LinksOf(all), l, q);
    var row := LinksOf(all)[all[q]];
    assert row[l := row[l]] == row;
  }

  lemma ValueAt(chain: seq<SlNode>, hs: seq<nat>, vs: seq<Value>, j: nat)
    requires Standing(chain, hs, vs) && 1 <= j < |chain|
    ensures |chain| == |vs| + 1 && chain[j].value == vs[j - 1]
  {
  }

  lemma StretchEnd(vs: seq<Value>, lo: Value, hi: Value, p: nat, r: nat, j: nat)
    requires Stretch(vs, lo, hi, p, r) && 1 <= j <= |vs|
    ensures Compare(vs[j - 1], hi) <= 0 <==> j <= r
  {
  }

  /** The inner loop of `skiplist_remove` on a level above 0. */
  method CutLevel(ghost all: seq<SlNode>, ghost hs: seq<nat>, ghost vs: seq<Value>, pr: SlNode, l: nat,
      ghost lo: Value, hi: Value, ghost p: nat, ghost r: nat, ghost q: nat)
    requires |all| == |hs| && LevelOk(all, hs, LinksOf(all), l) && Straddles(hs, q, p, l) && q <= p <= r < |all|
    requires pr == all[q]
    requires Distinct(all) && Standing(all, hs, vs) && Stretch(vs, lo, hi, p, r) && hs[q] > l
    modifies pr`next
    ensures Standing(all, hs, vs)
    ensures Redirected(old(LinksOf(all)), LinksOf(all), pr, l, At(all, Nxt(hs, r, l)))
  {
    hide *;
    ghost var nx := LinksOf(all);
    ghost var j := Nxt(hs, q, l);
    JumpStart(hs, q, r, l);
    RedirectedStart(all, hs, q, l);
    RedirectedTo(all, nx, pr, l, At(all, j));
    JumpAt(hs, q, r, l, j);
    AtIs(all, j);
    while pr.next[l] != null && Compare(pr.next[l].value, hi) <= 0
      invariant Jumps(hs, q, r, l, j) && q < j <= |hs| && (j < |hs| ==> hs[j] > l)
      invariant l < |pr.next| && pr.next[l] == At(all, j)
      invariant Standing(all, hs, vs) && Redirected(nx, LinksOf(all), pr, l, At(all, j))
      decreases |all| - j
    {
      AtIs(all, j);
      ValueAt(all, hs, vs, j);
      StretchEnd(vs, lo, hi, p, r, j);
      SkipOne(all, hs, vs, nx, pr, l, q, j);
      JumpStep(hs, q, r, l, j);
      j := Nxt(hs, j, l);
      JumpAt(hs, q, r, l, j);
      RedirectedTo(all, nx, pr, l, At(all, j));
      if pr.next[l] == null {
        break;
      }
    }
    AtIs(all, j);
    if j < |all| {
      ValueAt(all, hs, vs, j);
      StretchEnd(vs, lo, hi, p, r, j);
    }
    JumpEnd(hs, q, r, l, j);
  }

  /** Like `Standing`, with the places behind `p` up to `j` left out of the chain of `prev`. */
  ghost predicate StandingGap(all: seq<SlNode>, hs: seq<nat>, vs: seq<Value>, p: nat, j: nat)
    reads all
  {
    && Carries(all, vs) && Heights(all, hs) && p < j <= |all|
    && (forall i {:trigger all[i].prev} :: 0 < i < |all| && (i <= p || i > j) ==> all[i].prev == all[i - 1])
    && (j < |all| ==> all[j].prev == all[p])
  }

  lemma GapStart(all: seq<SlNode>, hs: seq<nat>, vs: seq<Value>, p: nat)
    requires Standing(all, hs, vs) && p < |all|
    ensures StandingGap(all, hs, vs, p, p + 1)
  {
  }

  lemma GapEnd(all: seq<SlNode>, hs: seq<nat>, vs: seq<Value>, p: nat, r: nat)
    requires StandingGap(all, hs, vs, p, r + 1) && p <= r < |all|
    ensures |hs| == |all| == |vs| + 1 && Standing(Cut(all, p, r), Cut(hs, p, r), vs[..p] + vs[r..])
  {
    var t, d := Cut(all, p, r), r - p;
    forall i {:trigger t[i].prev} | 0 < i < |t|
      ensures t[i].prev == t[i - 1]
    {
      if i <= p {
        assert t[i] == all[i] && t[i - 1] == all[i - 1];
      } else if i > p + 1 {
        assert t[i] == all[i + d] && t[i - 1] == all[i + d - 1];
      } else {
        assert t[i] == all[r + 1] && t[i - 1] == all[p];
      }
    }
  }

  lemma GapValue(all: seq<SlNode>, hs: seq<nat>, vs: seq<Value>, p: nat, j: nat)
    requires StandingGap(all, hs, vs, p, j) && j < |all|
    ensures |all| == |vs| + 1 && all[j].value == vs[j - 1]
  {
  }

  lemma {:induction false} GapAt(all: seq<SlNode>, hs: seq<nat>, vs: seq<Value>, nx: Links, p: nat, j: nat)
    requires StandingGap(all, hs, vs, p, j) && LevelOk(all, hs, nx, 0) && Distinct(all) && j < |all| && hs[j] > 0
    requires Redirected(nx, LinksOf(all), all[p], 0, all[j]) && forall i :: 0 <= i < |hs| ==> 1 <= hs[i]
    ensures |all| == |hs| && all[p].next != [] && all[p].next[0] == all[j] && all[j].next != []
    ensures all[j] in nx && all[j].next == nx[all[j]] && all[j].next[0] == At(all, j + 1) && j < Nxt(hs, j, 0) == j + 1
  {
    FirstNext(hs, j);
    assert LinkOk(all, hs, nx, 0, j);
    assert LinksOf(all)[all[p]] == all[p].next && LinksOf(all)[all[j]] == all[j].next;
  }

  /** One node leaves the chain: its follower leads back over it, and `pr` leads over it. */
  method FreeOne(ghost all: seq<SlNode>, ghost hs: seq<nat>, ghost vs: seq<Value>, ghost nx: Links, pr: SlNode,
      ghost p: nat, ghost j: nat, ghost freed: set<SlNode>)
    requires StandingGap(all, hs, vs, p, j) && LevelOk(all, hs, nx, 0) && Distinct(all) && j < |all| == |hs|
    requires pr == all[p]
    requires Redirected(nx, LinksOf(all), pr, 0, all[j]) && forall i :: 0 <= i < |hs| ==> 1 <= hs[i]
    requires pr.next != [] && pr.next[0] == all[j] && pr !in freed && forall i :: j <= i < |all| ==> all[i] !in freed
    modifies all`next, all`prev
    ensures StandingGap(all, hs, vs, p, j + 1) && Redirected(nx, LinksOf(all), pr, 0, At(all, j + 1))
  {
    GapAt(all, hs, vs, nx, p, j);
    hide LevelOk, Distinct;
    var remove := Alive(pr, freed).next[0];
    if Alive(remove, freed).next[0] != null {
      Alive(remove.next[0], freed).prev := pr;
    }

    ghost var to := At(all, j + 1);
    assert nx[pr][0 := all[j]][0 := to] == nx[pr][0 := to];
    Alive(pr, freed).next := pr.next[0 := remove.next[0]];
    assert LinksOf(all) == old(LinksOf(all))[pr := pr.next];
  }

  lemma ShapePut(all: seq<SlNode>, hs: seq<nat>, head: SlNode, p: nat, h: nat, node: SlNode)
    requires Shape(all, hs, head) && p < |all| && node !in all && 1 <= h <= MAX_LEVEL
    ensures Shape(Put(all, p, node), Put(hs, p, h), head)
    ensures forall n :: n in Put(all, p, node) <==> n in all || n == node
  {
    assert all == all[..p + 1] + all[p + 1..];
    var t := Put(all, p, node);
    forall i, j | 0 <= i < j < |t|
      ensures t[i] != t[j]
    {
      assert i <= p ==> t[i] == all[i];
      assert i > p + 1 ==> t[i] == all[i - 1];
      assert j <= p ==> t[j] == all[j];
      assert j > p + 1 ==> t[j] == all[j - 1];
    }
  }

  lemma TopPut(hs: seq<nat>, p: nat, h: nat, level: int)
    requires TopLevel(hs, level) && p < |hs| && 1 <= h <= MAX_LEVEL
    ensures TopLevel(Put(hs, p, h), if h <= level then level else h)
  {
    var t := Put(hs, p, h);
    if h <= level && level > 1 {
      var i :| 1 <= i < |hs| && hs[i] == level;
      assert t[if i <= p then i else i + 1] == level;
    } else if h > level {
      assert t[p + 1] == h;
    }
  }

  lemma OrderedInsert(both: bool, vs: seq<Value>, p: nat, v: Value)
    requires Ordered(both, vs) && Fits(both, vs, v, p)
    ensures Ordered(both, Insert(vs, p, v)) && |Insert(vs, p, v)| == |vs| + 1
  {
    var t := Insert(vs, p, v);
    forall i, j | 0 <= i < j < |t|
      ensures Cmp(both, t[i], t[j]) < 0
    {
      assert i < p ==> t[i] == vs[i];
      assert i > p ==> t[i] == vs[i - 1];
      assert j < p ==> t[j] == vs[j];
      assert j > p ==> t[j] == vs[j - 1];
    }
  }

  lemma OrderedReplace(both: bool, vs: seq<Value>, i: nat, v: Value)
    requires Ordered(both, vs) && i < |vs| && Cmp(both, vs[i], v) == 0
    ensures Ordered(both, vs[i := v])
  {
  }

  lemma AheadStart(both: bool, vs: seq<Value>, v: Value)
    ensures Ahead(both, vs, v, 0)
  {
  }

  /** Replacing the equal value is what setting does to the sequence. */
  lemma {:induction false} EqualPlace(both: bool, vs: seq<Value>, v: Value, j: nat)
    requires Ordered(both, vs) && 1 <= j <= |vs| && Cmp(both, vs[j - 1], v) == 0
    ensures SetIn(both, vs, v) == vs[j - 1 := v]
  {
    forall i | 0 <= i < j - 1
      ensures Cmp(both, vs[i], v) < 0
    {
      assert Cmp(both, vs[i], vs[j - 1]) < 0;
    }
    SetAt(both, vs, v, j - 1);
  }

  lemma {:induction false} FitsAt(both: bool, vs: seq<Value>, v: Value, p: nat)
    requires Fits(both, vs, v, p)
    ensures p <= |vs| && SetIn(both, vs, v) == Insert(vs, p, v)
  {
    SetAt(both, vs, v, p);
  }

  /** How many values come before the place of `v`. */
  ghost function SetPlace(both: bool, vs: seq<Value>, v: Value): (p: nat)
    ensures p <= |vs|
  {
    if vs == [] || Cmp(both, vs[0], v) >= 0 then 0 else 1 + SetPlace(both, vs[1..], v)
  }

  /** The heights after `v` has been set: a new tower of height `h` in its place, unless a value that compares
      equal is there already. */
  ghost function SetHeights(both: bool, vs: seq<Value>, hs: seq<nat>, v: Value, h: nat): seq<nat> {
    var p := SetPlace(both, vs, v);
    if p >= |hs| || (p < |vs| && Cmp(both, vs[p], v) == 0) then hs else Put(hs, p, h)
  }

  lemma {:induction false} SetPlaceIs(both: bool, vs: seq<Value>, v: Value, p: nat)
    requires p <= |vs| && (forall i :: 0 <= i < p ==> Cmp(both, vs[i], v) < 0)
    requires (p < |vs| ==> Cmp(both, vs[p], v) >= 0)
    ensures SetPlace(both, vs, v) == p
  {
    if p > 0 {
      assert forall i :: 0 <= i < p - 1 ==> vs[1..][i] == vs[i + 1];
      SetPlaceIs(both, vs[1..], v, p - 1);
    }
  }

  lemma {:induction false} FitsHeights(both: bool, vs: seq<Value>, hs: seq<nat>, v: Value, h: nat, p: nat)
    requires Fits(both, vs, v, p) && |hs| == |vs| + 1
    ensures p < |hs| && SetHeights(both, vs, hs, v, h) == Put(hs, p, h)
  {
    SetPlaceIs(both, vs, v, p);
  }

  lemma {:induction false} EqualHeights(both: bool, vs: seq<Value>, hs: seq<nat>, v: Value, h: nat, j: nat)
    requires Ordered(both, vs) && 1 <= j <= |vs| && Cmp(both, vs[j - 1], v) == 0
    ensures SetHeights(both, vs, hs, v, h) == hs
  {
    forall i | 0 <= i < j - 1
      ensures Cmp(both, vs[i], v) < 0
    {
      assert Cmp(both, vs[i], vs[j - 1]) < 0;
    }
    SetPlaceIs(both, vs, v, j - 1);
  }

  /** The search on level `l` stopped at `q` in front of a greater value or at the end. */
  ghost predicate Beyond(both: bool, hs: seq<nat>, vs: seq<Value>, v: Value, l: nat, q: nat) {
    Stops(both, hs, vs, v, l, q) && (Nxt(hs, q, l) < |hs| ==> Cmp(both, vs[Nxt(hs, q, l) - 1], v) > 0)
  }

  /** What `prev` holds for the levels that have been searched. */
  ghost predicate Passed(prev: seq<SlNode?>, all: seq<SlNode>, hs: seq<nat>, vs: seq<Value>, pi: seq<nat>,
      both: bool, v: Value, lo: nat, hi: nat) {
    && |prev| == |pi| == MAX_LEVEL + 1 && hi <= MAX_LEVEL
    && forall k :: lo <= k < hi ==> pi[k] < |all| && prev[k] == all[pi[k]] && Beyond(both, hs, vs, v, k, pi[k])
  }

  lemma PassedStart(prev: seq<SlNode?>, all: seq<SlNode>, hs: seq<nat>, vs: seq<Value>, pi: seq<nat>,
      both: bool, v: Value, level: nat)
    requires |prev| == |pi| == MAX_LEVEL + 1 && level <= MAX_LEVEL
    ensures Passed(prev, all, hs, vs, pi, both, v, level, level)
  {
  }

  lemma {:induction false} PassedStep(prev: seq<SlNode?>, all: seq<SlNode>, hs: seq<nat>, vs: seq<Value>, pi: seq<nat>,
      both: bool, v: Value, l: nat, hi: nat, pr: SlNode, q: nat)
    requires Passed(prev, all, hs, vs, pi, both, v, l + 1, hi) && l < hi
    requires q < |all| && pr == all[q] && Stops(both, hs, vs, v, l, q)
    requires Nxt(hs, q, l) < |hs| ==> Cmp(both, vs[Nxt(hs, q, l) - 1], v) != 0
    ensures Passed(prev[l := pr], all, hs, vs, pi[l := q], both, v, l, hi)
  {
    assert Beyond(both, hs, vs, v, l, q);
  }

  lemma BeyondFits(both: bool, hs: seq<nat>, vs: seq<Value>, v: Value, p: nat)
    requires Beyond(both, hs, vs, v, 0, p) && Ordered(both, vs) && forall i :: 0 <= i < |hs| ==> 1 <= hs[i]
    ensures Fits(both, vs, v, p)
  {
    FirstNext(hs, p);
    forall i | 0 <= i < |vs|
      ensures if i < p then Cmp(both, vs[i], v) < 0 else Cmp(both, vs[i], v) > 0
    {
      if i < p - 1 { assert Cmp(both, vs[i], vs[p - 1]) < 0; }
      if i > p { assert Cmp(both, vs[p], vs[i]) < 0; }
    }
  }

  lemma BeyondStraddles(both: bool, hs: seq<nat>, vs: seq<Value>, v: Value, p: nat, l: nat, q: nat)
    requires Beyond(both, hs, vs, v, l, q) && Fits(both, vs, v, p)
    ensures Straddles(hs, q, p, l)
  {
  }

  lemma PassedEnd(prev: seq<SlNode?>, all: seq<SlNode>, hs: seq<nat>, vs: seq<Value>, pi: seq<nat>,
      both: bool, v: Value, level: nat)
    requires Passed(prev, all, hs, vs, pi, both, v, 0, level) && Ordered(both, vs) && |all| == |hs| && 1 <= level
    requires forall i :: 0 <= i < |hs| ==> 1 <= hs[i]
    ensures Fits(both, vs, v, pi[0]) && Tracks(prev, all, hs, pi, pi[0], 0, level)
  {
    assert Beyond(both, hs, vs, v, 0, pi[0]);
    BeyondFits(both, hs, vs, v, pi[0]);
    forall k | 0 <= k < level
      ensures pi[k] < |all| && prev[k] == all[pi[k]] && Straddles(hs, pi[k], pi[0], k)
    {
      BeyondStraddles(both, hs, vs, v, pi[0], k, pi[k]);
    }
  }

  /** What `prev` holds for the levels that the search for removal has left. */
  ghost predicate Reached(prev: seq<SlNode?>, all: seq<SlNode>, hs: seq<nat>, vs: seq<Value>, pi: seq<nat>,
      key: Value, lo: nat, hi: nat) {
    && |prev| == |pi| == MAX_LEVEL + 1 && hi <= MAX_LEVEL
    && forall k :: lo <= k < hi ==> pi[k] < |all| && prev[k] == all[pi[k]] && Stops(false, hs, vs, key, k, pi[k])
  }

  lemma ReachedStart(prev: seq<SlNode?>, all: seq<SlNode>, hs: seq<nat>, vs: seq<Value>, pi: seq<nat>, key: Value,
                     level: nat)
    requires |prev| == |pi| == MAX_LEVEL + 1 && level <= MAX_LEVEL
    ensures Reached(prev, all, hs, vs, pi, key, level, level)
  {
  }

  lemma ReachedStep(prev: seq<SlNode?>, all: seq<SlNode>, hs: seq<nat>, vs: seq<Value>, pi: seq<nat>,
      key: Value, l: nat, hi: nat, pr: SlNode, q: nat)
    requires Reached(prev, all, hs, vs, pi, key, l + 1, hi) && l < hi
    requires q < |all| && pr == all[q] && Stops(false, hs, vs, key, l, q)
    ensures Reached(prev[l := pr], all, hs, vs, pi[l := q], key, l, hi)
  {
  }

  lemma BareStart(hs: seq<nat>, pi: seq<nat>, level: nat)
    requires |pi| == MAX_LEVEL + 1 && level <= MAX_LEVEL
    ensures Bare(hs, pi, level - 1, level)
  {
  }

  lemma {:induction false} BareStep(hs: seq<nat>, pi: seq<nat>, l: nat, level: nat, q: nat, top: int, end: bool)
    requires Bare(hs, pi, if top == -1 then l else top, level) && l < level && q < |hs| && Nxt(hs, q, l) <= |hs|
    requires (top == -1 || top > l) && (end <==> Nxt(hs, q, l) == |hs|)
    ensures top == -1 ==> Bare(hs, pi[l := q], if end then l - 1 else l, level)
    ensures top != -1 ==> Bare(hs, pi[l := q], top, level)
  {
  }

  /** At the bottom the search has found where the interval starts. */
  lemma {:induction false} ReachedBottom(prev: seq<SlNode?>, all: seq<SlNode>, hs: seq<nat>, vs: seq<Value>,
      pi: seq<nat>, lo: Value, hi: Value, level: nat)
    requires Reached(prev, all, hs, vs, pi, lo, 0, level) && 1 <= level && KeysAscend(vs) && Compare(lo, hi) <= 0
    requires forall i :: 0 <= i < |hs| ==> 1 <= hs[i]
    ensures Stretch(vs, lo, hi, pi[0], UpTo(vs, hi))
  {
    FirstNext(hs, pi[0]);
    assert Stops(false, hs, vs, lo, 0, pi[0]);
    var p, r := pi[0], UpTo(vs, hi);
    CmpIsAll(lo);
    forall i | 0 <= i < |vs|
      ensures if i < p then Compare(vs[i], lo) < 0 else Compare(vs[i], lo) >= 0
    {
      assert i < p ==> vs[i].key <= vs[p - 1].key;
      assert i >= p ==> vs[p].key <= vs[i].key;
    }
  }

  lemma CmpIsAll(b: Value)
    ensures forall a :: Cmp(false, a, b) == Compare(a, b)
  {
  }

  lemma ReachedTracks(prev: seq<SlNode?>, all: seq<SlNode>, hs: seq<nat>, vs: seq<Value>, pi: seq<nat>,
      lo: Value, hi: Value, r: nat, level: nat)
    requires Reached(prev, all, hs, vs, pi, lo, 0, level) && 1 <= level && Stretch(vs, lo, hi, pi[0], r)
    requires |all| == |hs| == |vs| + 1
    ensures Tracks(prev, all, hs, pi, pi[0], 0, level) && (forall k :: 0 <= k < level ==> pi[k] <= pi[0])
  {
    var p := pi[0];
    forall k | 0 <= k < level
      ensures Straddles(hs, pi[k], p, k)
    {
      assert Stops(false, hs, vs, lo, k, pi[k]);
      var n := Nxt(hs, pi[k], k);
      CmpIsAll(lo);
      assert pi[k] > 0 ==> Compare(vs[pi[k] - 1], lo) < 0;
      assert n < |hs| ==> Compare(vs[n - 1], lo) >= 0;
    }
  }

  lemma CutHead(all: seq<SlNode>, hs: seq<nat>, p: nat, r: nat)
    requires |all| == |hs| && p <= r < |all|
    ensures |Cut(hs, p, r)| == |Cut(all, p, r)| > 0 && Cut(hs, p, r)[0] == hs[0] && Cut(all, p, r)[0] == all[0]
  {
  }

  lemma TrimmedAt(all: seq<SlNode>, hs: seq<nat>, nx: Links, p: nat, r: nat, l: nat, k: nat)
    requires Trimmed(all, hs, nx, p, r, l) && k < MAX_LEVEL
    ensures p <= r < |all| == |hs|
    ensures if k < l then LevelOk(all, hs, nx, k) else LevelOk(Cut(all, p, r), Cut(hs, p, r), nx, k)
  {
  }

  lemma HeadLeads(all: seq<SlNode>, hs: seq<nat>, vs: seq<Value>, l: nat)
    requires Standing(all, hs, vs) && |all| > 0 && |hs| > 0 && l < hs[0]
    ensures l < |all[0].next| && (LeadsTo(LinksOf(all), all[0], l, null) <==> all[0].next[l] == null)
  {
  }

  lemma TopEnd(hs: seq<nat>, level: int, l: int)
    requires TopSoFar(hs, level, l) && l <= 0
    ensures TopLevel(hs, level)
  {
  }

  /** The nodes on the places from `a` up to `b`. */
  ghost function Members(all: seq<SlNode>, a: nat, b: nat): set<SlNode>
    requires a <= b <= |all|
  {
    set n | n in all[a..b]
  }

  lemma MembersNone(all: seq<SlNode>, a: nat)
    requires a <= |all|
    ensures Members(all, a, a) == {}
  {
  }

  lemma MembersStep(all: seq<SlNode>, a: nat, j: nat)
    requires a <= j < |all|
    ensures Members(all, a, j + 1) == Members(all, a, j) + {all[j]}
  {
    assert all[a..j + 1] == all[a..j] + [all[j]];
  }

  lemma MembersBehind(all: seq<SlNode>, a: nat, j: nat)
    requires a <= j < |all| && Distinct(all)
    ensures all[j] !in Members(all, a, j)
  {
  }

  /** Neither what is in front of the stretch nor what is behind it has been freed with it. */
  lemma MembersApart(all: seq<SlNode>, p: nat, j: nat, freed: set<SlNode>)
    requires p < j <= |all| && Distinct(all) && forall n :: n in all ==> n !in freed
    ensures all[p] !in freed + Members(all, p + 1, j)
    ensures forall i :: j <= i < |all| ==> all[i] !in freed + Members(all, p + 1, j)
  {
  }

  lemma MembersCut(all: seq<SlNode>, p: nat, r: nat)
    requires p <= r < |all| && Distinct(all)
    ensures Members(all, p + 1, r + 1) == set n | n in all && n !in Cut(all, p, r)
    ensures forall n :: n in Cut(all, p, r) ==> n in all && n !in Members(all, p + 1, r + 1)
  {
    assert all == all[..p + 1] + all[p + 1..r + 1] + all[r + 1..];
    forall n | n in Members(all, p + 1, r + 1)
      ensures n in all && n !in Cut(all, p, r)
    {
      assert forall i :: 0 <= i < |all| && !(p < i <= r) ==> all[i] != n;
    }
  }

  lemma StretchBound(vs: seq<Value>, lo: Value, hi: Value, p: nat, r: nat)
    requires Stretch(vs, lo, hi, p, r)
    ensures p <= r <= |vs|
  {
  }

  lemma GapSizes(all: seq<SlNode>, hs: seq<nat>, vs: seq<Value>, p: nat, j: nat)
    requires StandingGap(all, hs, vs, p, j)
    ensures |all| == |hs| == |vs| + 1
  {
  }

  /** The interval between two keys in either order. */
  ghost function Lower(a: Value, b: Value): Value {
    if Compare(a, b) > 0 then b else a
  }

  ghost function Upper(a: Value, b: Value): Value {
    if Compare(a, b) > 0 then a else b
  }

  lemma EndsAre(a: Value, b: Value, lo: Value, hi: Value)
    requires lo == (if Compare(a, b) > 0 then b else a) && hi == (if Compare(a, b) > 0 then a else b)
    ensures lo == Lower(a, b) && hi == Upper(a, b) && Compare(lo, hi) <= 0
  {
  }

  /** When the search met nothing, there is no stretch, and level 0 is as it was. */
  lemma TrimmedBottom(all: seq<SlNode>, hs: seq<nat>, nx: Links, pi: seq<nat>, p: nat, r: nat, top: int, level: int)
    requires -1 <= top < level && 1 <= level && Bare(hs, pi, top, level)
    requires Trimmed(all, hs, nx, p, r, if top <= 0 then top + 1 else 1)
    requires pi[0] == p && forall i :: 0 <= i < |hs| ==> 1 <= hs[i]
    ensures Trimmed(all, hs, nx, p, r, 1) && LevelOk(all, hs, nx, 0)
  {
    if top == -1 {
      FirstNext(hs, p);
      assert Cut(all, p, r) == all && Cut(hs, p, r) == hs;
    }
  }

  lemma Bridge(all: seq<SlNode>, hs: seq<nat>, nx: Links, nx': Links, p: nat, r: nat)
    requires Trimmed(all, hs, nx, p, r, 1) && Distinct(all) && (forall i :: 0 <= i < |hs| ==> 1 <= hs[i])
    requires Redirected(nx, nx', all[p], 0, At(all, r + 1))
    ensures Levels(Cut(all, p, r), Cut(hs, p, r), nx')
  {
    FirstNext(hs, p);
    FirstNext(hs, r);
    assert Straddles(hs, p, p, 0);
    TrimmedStep(all, hs, nx, nx', p, r, p, 0);
  }

  lemma ShapeCut(all: seq<SlNode>, hs: seq<nat>, head: SlNode, p: nat, r: nat)
    requires Shape(all, hs, head) && p <= r < |all|
    ensures Shape(Cut(all, p, r), Cut(hs, p, r), head)
  {
    var t := Cut(all, p, r);
    forall i, j | 0 <= i < j < |t|
      ensures t[i] != t[j]
    {
      assert t[i] == all[if i <= p then i else i + (r - p)] && t[j] == all[if j <= p then j else j + (r - p)];
    }
  }

  lemma OrderedCut(both: bool, vs: seq<Value>, p: nat, r: nat)
    requires Ordered(both, vs) && p <= r <= |vs|
    ensures Ordered(both, vs[..p] + vs[r..])
  {
  }

  lemma ShapeDistinct(all: seq<SlNode>, hs: seq<nat>, head: SlNode)
    requires Shape(all, hs, head)
    ensures Distinct(all)
  {
  }

  lemma LinksCut(all: seq<SlNode>, was: seq<SlNode>)
    requires forall n :: n in all ==> n in was
    ensures forall k :: SameColumn(all, LinksOf(was), LinksOf(all), k)
  {
  }

  lemma LevelsFrom(all: seq<SlNode>, hs: seq<nat>, nx: Links, nx': Links)
    requires Levels(all, hs, nx) && forall k :: SameColumn(all, nx, nx', k)
    ensures Levels(all, hs, nx')
  {
    forall k | 0 <= k < MAX_LEVEL
      ensures LevelOk(all, hs, nx', k)
    {
      OtherLevel(all, hs, nx, nx', k);
    }
  }

  lemma MembersAll(all: seq<SlNode>)
    requires |all| > 0 && Distinct(all)
    ensures Members(all, 1, |all|) == set n | n in all && n != all[0]
  {
    assert all == [all[0]] + all[1..];
  }

  /** Exactly the first `r` values do not exceed `hi`. */
  ghost predicate Ends(vs: seq<Value>, hi: Value, r: nat) {
    r <= |vs| && forall i :: 0 <= i < |vs| ==> (Compare(vs[i], hi) <= 0 <==> i < r)
  }

  /** Exactly the first `f` values are below `lo`. */
  ghost predicate Begins(vs: seq<Value>, lo: Value, f: nat) {
    f <= |vs| && forall i :: 0 <= i < |vs| ==> (Compare(vs[i], lo) < 0 <==> i < f)
  }

  lemma EndsAt(vs: seq<Value>, hi: Value, r: nat, i: nat)
    requires Ends(vs, hi, r) && i < |vs|
    ensures Compare(vs[i], hi) <= 0 <==> i < r
  {
  }

  lemma BeginsAt(vs: seq<Value>, lo: Value, f: nat, i: nat)
    requires Begins(vs, lo, f) && i < |vs|
    ensures Compare(vs[i], lo) >= 0 <==> i >= f
  {
  }

  lemma NoMore(s: seq<Value>)
    ensures s == s + []
  {
  }

  lemma MoreOut(was: seq<Value>, out: seq<Value>, vs: seq<Value>, s: nat, j: nat)
    requires s <= j < |vs| && out == vs[s..j]
    ensures out + [vs[j]] == vs[s..j + 1] && (was + out) + [vs[j]] == was + (out + [vs[j]])
  {
  }

  lemma BackStart(vs: seq<Value>, e: nat)
    requires e <= |vs|
    ensures Reverse(vs[e..e]) == []
  {
    assert vs[e..e] == [];
  }

  lemma {:induction false} ReverseCons(x: Value, s: seq<Value>)
    ensures Reverse([x] + s) == Reverse(s) + [x]
  {
    var t := [x] + s;
    if s != [] {
      ReverseCons(x, s[..|s| - 1]);
      assert t[..|t| - 1] == [x] + s[..|s| - 1];
    } else {
      assert t == [x] && [x][..0] == [];
    }
  }

  lemma BackOut(was: seq<Value>, out: seq<Value>, vs: seq<Value>, j: nat, e: nat)
    requires 0 < j <= e <= |vs| && out == Reverse(vs[j..e])
    ensures out + [vs[j - 1]] == Reverse(vs[j - 1..e]) && (was + out) + [vs[j - 1]] == was + (out + [vs[j - 1]])
  {
    ReverseCons(vs[j - 1], vs[j..e]);
    assert [vs[j - 1]] + vs[j..e] == vs[j - 1..e];
  }

  lemma FirstIs(vs: seq<Value>, s: nat, j: nat, r: nat, limit: int)
    requires s <= j <= r <= |vs| && (j == s || j - s <= limit) && (j == r || j - s >= limit)
    ensures vs[s..j] == First(vs[s..r], limit)
  {
  }

  lemma {:induction false} ReversePrefix(s: seq<Value>, k: nat)
    requires k <= |s|
    ensures Reverse(s)[..k] == Reverse(s[|s| - k..])
  {
    if k == 0 {
      assert s[|s|..] == [];
    } else {
      var n := |s| - 1;
      ReversePrefix(s[..n], k - 1);
      assert s[|s| - k..][..k - 1] == s[..n][n - (k - 1)..];
      assert s[|s| - k..][k - 1] == s[n];
    }
  }

  lemma FirstBack(vs: seq<Value>, f: nat, j: nat, e: nat, limit: int)
    requires f <= j <= e <= |vs| && (j == e || e - j <= limit) && (j == f || e - j >= limit)
    ensures Reverse(vs[j..e]) == First(Reverse(vs[f..e]), limit)
  {
    ReversePrefix(vs[f..e], e - j);
    assert vs[f..e][(e - f) - (e - j)..] == vs[j..e];
  }

  /** `slice_append` with room to spare. */
  method Emit(data: Slice<Value>, value: Value)
    requires data.Valid() && data.pos + data.len < LONG_MAX
    modifies data, data.data, data.data.data
    ensures data.Valid() && data.View() == old(data.View()) + [value]
    ensures data.pos + data.len <= old(data.pos + data.len) + 1
    ensures data.data == old(data.data) || (fresh(data.data) && fresh(data.data.data))
  {
    var _ := data.Append(value);
  }

  /** How many values are below `lo`. */
  ghost function BelowOf(vs: seq<Value>, lo: Value): (f: nat)
    ensures f <= |vs| && (f < |vs| ==> Compare(vs[f], lo) >= 0) && (f > 0 ==> Compare(vs[f - 1], lo) < 0)
  {
    if vs == [] || Compare(vs[|vs| - 1], lo) < 0 then |vs| else BelowOf(vs[..|vs| - 1], lo)
  }

  lemma {:induction false} EndsOf(vs: seq<Value>, lo: Value, hi: Value)
    requires KeysAscend(vs)
    ensures Begins(vs, lo, BelowOf(vs, lo)) && Ends(vs, hi, UpTo(vs, hi))
    ensures Compare(lo, hi) <= 0 ==> Stretch(vs, lo, hi, BelowOf(vs, lo), UpTo(vs, hi))
  {
    var f, r := BelowOf(vs, lo), UpTo(vs, hi);
    forall i | 0 <= i < |vs|
      ensures (Compare(vs[i], lo) < 0 <==> i < f) && (Compare(vs[i], hi) <= 0 <==> i < r)
    {
      assert i < f ==> vs[i].key <= vs[f - 1].key;
      assert i >= f ==> vs[f].key <= vs[i].key;
      assert i < r ==> vs[i].key <= vs[r - 1].key;
      assert i >= r ==> vs[r].key <= vs[i].key;
    }
  }

  /** The heights after the values of the interval have been removed. */
  ghost function CutHeights(vs: seq<Value>, hs: seq<nat>, lo: Value, hi: Value): seq<nat> {
    var p, r := BelowOf(vs, lo), UpTo(vs, hi);
    if p <= r < |hs| then Cut(hs, p, r) else hs
  }

  lemma {:induction false} CutHeightsIs(vs: seq<Value>, hs: seq<nat>, lo: Value, hi: Value, p: nat, r: nat)
    requires Stretch(vs, lo, hi, p, r) && |hs| == |vs| + 1
    ensures CutHeights(vs, hs, lo, hi) == Cut(hs, p, r)
  {
    assert BelowOf(vs, lo) == p && UpTo(vs, hi) == r;
  }

  /** Where a search stops: at the first of the tallest towers whose values compare equal, or beside the gap. */
  ghost function StopPlace(hs: seq<nat>, vs: seq<Value>, key: Value, down: bool): nat {
    if exists j: nat :: Tallest(hs, vs, key, j) then
      var j: nat :| Tallest(hs, vs, key, j);
      j
    else
      BelowOf(vs, key) + if down then 0 else 1
  }

  lemma {:induction false} StopPlaceIs(hs: seq<nat>, vs: seq<Value>, key: Value, down: bool, at: nat)
    requires KeysAscend(vs)
    requires Tallest(hs, vs, key, at) || (if down then Absent(vs, key, at) else at > 0 && Absent(vs, key, at - 1))
    ensures StopPlace(hs, vs, key, down) == at
  {
    if Tallest(hs, vs, key, at) {
      forall j: nat | Tallest(hs, vs, key, j)
        ensures j == at
      {
        assert EqualAt(vs, key, j) && EqualAt(vs, key, at);
      }
    } else {
      var p := if down then at else at - 1;
      forall j: nat
        ensures !Tallest(hs, vs, key, j)
      {
        assert EqualAt(vs, key, j) ==> j - 1 < p || p <= j - 1;
      }
      assert BelowOf(vs, key) == p;
    }
  }

  ghost function Between(vs: seq<Value>, from: int, to: int): seq<Value> {
    if 0 <= from <= to <= |vs| then vs[from..to] else []
  }

  /** What `skiplist_range` lists: what lies from the place where the search stops to the other end. */
  ghost function Listing(hs: seq<nat>, vs: seq<Value>, key1: Value, key2: Value, limit: int): seq<Value> {
    if Compare(key1, key2) > 0
    then First(Reverse(Between(vs, BelowOf(vs, key2), StopPlace(hs, vs, key1, true))), limit)
    else First(Between(vs, StopPlace(hs, vs, key1, false) - 1, UpTo(vs, key2)), limit)
  }

  lemma {:induction false} ListingUp(hs: seq<nat>, vs: seq<Value>, key1: Value, key2: Value, limit: int, at: nat)
    requires KeysAscend(vs) && Compare(key1, key2) <= 0 && 1 <= at && at - 1 <= UpTo(vs, key2)
    requires Tallest(hs, vs, key1, at) || Absent(vs, key1, at - 1)
    ensures Listing(hs, vs, key1, key2, limit) == First(vs[at - 1..UpTo(vs, key2)], limit)
  {
    StopPlaceIs(hs, vs, key1, false, at);
  }

  lemma {:induction false} ListingDown(hs: seq<nat>, vs: seq<Value>, key1: Value, key2: Value, limit: int, at: nat)
    requires KeysAscend(vs) && Compare(key1, key2) > 0 && BelowOf(vs, key2) <= at <= |vs|
    requires Tallest(hs, vs, key1, at) || Absent(vs, key1, at)
    ensures Listing(hs, vs, key1, key2, limit) == First(Reverse(vs[BelowOf(vs, key2)..at]), limit)
  {
    StopPlaceIs(hs, vs, key1, true, at);
  }

  /** What a caller of `skiplist_range` means. */
  ghost function Wanted(vs: seq<Value>, key1: Value, key2: Value): seq<Value> {
    if Compare(key1, key2) > 0 then Reverse(Interval(vs, key2, key1)) else Interval(vs, key1, key2)
  }

  /** The tallest of the values equal to `key1` is the first one in the direction of the range. */
  ghost predicate StartsRight(hs: seq<nat>, vs: seq<Value>, key1: Value, key2: Value) {
    forall i, j :: Tallest(hs, vs, key1, j) && EqualAt(vs, key1, i) ==>
      if Compare(key1, key2) > 0 then i <= j else j <= i
  }

  /** Without `compare2` no two values compare equal, so every range is right. */
  lemma UniqueStarts(hs: seq<nat>, vs: seq<Value>, key1: Value, key2: Value)
    requires Ordered(false, vs)
    ensures StartsRight(hs, vs, key1, key2)
  {
    forall i, j | Tallest(hs, vs, key1, j) && EqualAt(vs, key1, i)
      ensures i == j
    {
      assert i < j ==> Cmp(false, vs[i - 1], vs[j - 1]) < 0;
      assert j < i ==> Cmp(false, vs[j - 1], vs[i - 1]) < 0;
    }
  }

  lemma {:induction false} UpPlace(hs: seq<nat>, vs: seq<Value>, key1: Value, key2: Value, at: nat, r: nat)
    requires KeysAscend(vs) && Compare(key1, key2) <= 0 && r == UpTo(vs, key2)
    requires Tallest(hs, vs, key1, at) || (at > 0 && Absent(vs, key1, at - 1))
    ensures 1 <= at && at - 1 <= r <= |vs| && Ends(vs, key2, r)
  {
    EndsOf(vs, key1, key2);
  }

  lemma {:induction false} DownPlace(hs: seq<nat>, vs: seq<Value>, key1: Value, key2: Value, at: nat, f: nat)
    requires KeysAscend(vs) && Compare(key1, key2) > 0 && f == BelowOf(vs, key2)
    requires Tallest(hs, vs, key1, at) || Absent(vs, key1, at)
    ensures f <= at <= |vs| && Begins(vs, key2, f)
  {
    EndsOf(vs, key2, key1);
  }

  lemma FirstWhole(s: seq<Value>, limit: int)
    requires limit > 0
    ensures s != [] ==> First(s, limit) != [] && First(s, limit)[0] == s[0]
  {
  }

  lemma {:induction false} UpExact(two: bool, hs: seq<nat>, vs: seq<Value>, key1: Value, key2: Value, at: nat,
                                   limit: int)
    requires Ordered(two, vs) && KeysAscend(vs) && Compare(key1, key2) <= 0 && |hs| == |vs| + 1
    requires Tallest(hs, vs, key1, at) || (at > 0 && Absent(vs, key1, at - 1))
    requires 1 <= at && at - 1 <= UpTo(vs, key2)
    ensures First(vs[at - 1..UpTo(vs, key2)], limit) == First(Wanted(vs, key1, key2), limit)
      <==> limit <= 0 || StartsRight(hs, vs, key1, key2)
  {
    var f, r, s := BelowOf(vs, key1), UpTo(vs, key2), at - 1;
    EndsOf(vs, key1, key2);
    StretchAt(vs, key1, key2, f, r);
    if Tallest(hs, vs, key1, at) {
      assert EqualAt(vs, key1, at);
      if f < s {
        KeysBetween(vs, key1, f, s);
        assert EqualAt(vs, key1, f + 1);
        assert Cmp(two, vs[f], vs[s]) < 0;
        if limit > 0 {
          FirstWhole(vs[s..r], limit);
          FirstWhole(vs[f..r], limit);
        }
      }
    }
  }

  lemma KeysBetween(vs: seq<Value>, key: Value, f: nat, s: nat)
    requires KeysAscend(vs) && f <= s < |vs| && Compare(vs[f], key) >= 0 && Compare(vs[s], key) == 0
    ensures Compare(vs[f], key) == 0
  {
    assert vs[f].key <= vs[s].key;
  }

  lemma DownStarts(hs: seq<nat>, vs: seq<Value>, key1: Value, key2: Value, at: nat, r: nat)
    requires KeysAscend(vs) && Compare(key1, key2) > 0 && |hs| == |vs| + 1 && Ends(vs, key1, r)
    requires Tallest(hs, vs, key1, at) || Absent(vs, key1, at)
    ensures at <= r && (StartsRight(hs, vs, key1, key2) <==> at == r)
    ensures at < r ==> at > 0 && EqualAt(vs, key1, r)
  {
    assert at > 0 ==> Compare(vs[at - 1], key1) <= 0;
    assert r > 0 ==> Compare(vs[r - 1], key1) <= 0;
    if Tallest(hs, vs, key1, at) {
      assert EqualAt(vs, key1, at);
      if at < r {
        assert vs[at - 1].key <= vs[r - 1].key;
        assert EqualAt(vs, key1, r);
      } else {
        forall j | Tallest(hs, vs, key1, j)
          ensures j == at
        {
          assert EqualAt(vs, key1, j);
        }
      }
    }
  }

  /** The last values differ, so do the two stretches turned around. */
  lemma DownDiffers(two: bool, vs: seq<Value>, f: nat, at: nat, r: nat, limit: int)
    requires Ordered(two, vs) && f <= at < r <= |vs| && limit > 0
    ensures First(Reverse(vs[f..at]), limit) != First(Reverse(vs[f..r]), limit)
  {
    var a, b := vs[f..at], vs[f..r];
    FirstWhole(Reverse(a), limit);
    FirstWhole(Reverse(b), limit);
    ReverseAt(b, 0);
    if a != [] {
      ReverseAt(a, 0);
      assert Cmp(two, vs[at - 1], vs[r - 1]) < 0;
    }
  }

  lemma {:induction false} DownExact(two: bool, hs: seq<nat>, vs: seq<Value>, key1: Value, key2: Value, at: nat,
                                     limit: int)
    requires Ordered(two, vs) && KeysAscend(vs) && Compare(key1, key2) > 0 && |hs| == |vs| + 1
    requires Tallest(hs, vs, key1, at) || Absent(vs, key1, at)
    requires BelowOf(vs, key2) <= at <= |vs|
    ensures First(Reverse(vs[BelowOf(vs, key2)..at]), limit) == First(Wanted(vs, key1, key2), limit)
      <==> limit <= 0 || StartsRight(hs, vs, key1, key2)
  {
    hide StartsRight, Tallest, Absent, Reverse, Stretch, KeysAscend;
    var f, r := BelowOf(vs, key2), UpTo(vs, key1);
    EndsOf(vs, key2, key1);
    StretchAt(vs, key2, key1, f, r);
    DownStarts(hs, vs, key1, key2, at, r);
    if at < r && limit > 0 {
      DownDiffers(two, vs, f, at, r, limit);
    }
  }

  lemma FirstPlace(hs: seq<nat>, q: nat, p: nat)
    requires Straddles(hs, q, p, 0) && forall i :: 0 <= i < |hs| ==> 1 <= hs[i]
    ensures q == p
  {
    FirstNext(hs, q);
  }

  lemma TopLevelIs(hs: seq<nat>, level: int)
    requires TopLevel(hs, level)
    ensures 1 <= level <= MAX_LEVEL
  {
  }

  lemma CmpIs(a: Value, b: Value)
    ensures Cmp(false, a, b) == Compare(a, b)
  {
  }

  lemma TallestIs(hs: seq<nat>, vs: seq<Value>, key: Value, j: int)
    requires Tallest(hs, vs, key, j)
    ensures EqualAt(vs, key, j) && 1 <= j <= |vs|
  {
  }

  lemma NoneAtAll(hs: seq<nat>, vs: seq<Value>, key: Value)
    requires NoneAbove(hs, vs, key, 0) && forall i :: 0 <= i < |hs| ==> 1 <= hs[i]
    ensures !exists i :: EqualAt(vs, key, i)
  {
  }

  lemma AtIs(all: seq<SlNode>, j: nat)
    requires j <= |all|
    ensures At(all, j) != null <==> j < |all|
    ensures j < |all| ==> At(all, j) == all[j]
  {
  }

  lemma AheadIs(both: bool, vs: seq<Value>, v: Value, q: nat)
    requires 0 < q <= |vs| && Cmp(both, vs[q - 1], v) < 0
    ensures Ahead(both, vs, v, q)
  {
  }

  lemma {:induction false} StopsIs(both: bool, hs: seq<nat>, vs: seq<Value>, v: Value, l: nat, q: nat)
    requires |hs| == |vs| + 1 && Ahead(both, vs, v, q) && q < |hs| && hs[q] > l
    requires Nxt(hs, q, l) < |hs| ==> Cmp(both, vs[Nxt(hs, q, l) - 1], v) >= 0
    ensures Stops(both, hs, vs, v, l, q)
  {
  }
}
