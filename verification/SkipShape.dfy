/** Towers of links over one ordered chain of nodes. */
module SkipShape {
  import opened Values

  class SlNode {
    var value: Value
    var prev: SlNode?
    var next: seq<SlNode?>

    constructor (value: Value, height: nat)
      ensures this.value == value && prev == null && next == seq(height, _ => null)
    {
      this.value, prev, next := value, null, seq(height, _ => null);
    }
  }

  /** A node that may be accessed: it has not been freed. */
  function Alive(n: SlNode, ghost freed: set<SlNode>): (r: SlNode)
    requires n !in freed
    ensures r == n
  {
    n
  }

  /** All `next` arrays of a list at some moment. */
  type Links = map<SlNode, seq<SlNode?>>

  /** The chain of all nodes, the head first; `hs[i]` is the height of the tower of `all[i]`. The next tower
      behind `i` that reaches level `l`, or the end of the chain. */
  ghost function Nxt(hs: seq<nat>, i: nat, l: nat): (j: nat)
    requires i < |hs|
    ensures Reaches(hs, i, l, j)
    decreases |hs| - i
  {
    if i + 1 == |hs| || hs[i + 1] > l then i + 1 else Nxt(hs, i + 1, l)
  }

  ghost predicate Reaches(hs: seq<nat>, i: nat, l: nat, j: nat) {
    i < j <= |hs| && (j < |hs| ==> hs[j] > l) && forall k :: i < k < j ==> hs[k] <= l
  }

  lemma {:induction false} NxtIs(hs: seq<nat>, i: nat, l: nat, j: nat)
    requires Reaches(hs, i, l, j)
    ensures Nxt(hs, i, l) == j
  {
    var n := Nxt(hs, i, l);
    assert Reaches(hs, i, l, n);
  }

  /** The places that following level `l` from place `i` visits. */
  ghost function Track(hs: seq<nat>, i: nat, l: nat): seq<nat>
    requires i < |hs|
    decreases |hs| - i
  {
    var j := Nxt(hs, i, l);
    if j == |hs| then [] else [j] + Track(hs, j, l)
  }

  /** It visits exactly the towers that reach the level, in order, so each level is a sublist of the one below. */
  lemma {:induction false} TrackIs(hs: seq<nat>, i: nat, l: nat)
    requires i < |hs|
    ensures forall k :: k in Track(hs, i, l) <==> i < k < |hs| && hs[k] > l
    ensures forall a, b :: 0 <= a < b < |Track(hs, i, l)| ==> Track(hs, i, l)[a] < Track(hs, i, l)[b]
    ensures forall k :: k in Track(hs, i, l + 1) ==> k in Track(hs, i, l)
  {
    TrackOne(hs, i, l);
    TrackOne(hs, i, l + 1);
  }

  lemma {:induction false} TrackOne(hs: seq<nat>, i: nat, l: nat)
    requires i < |hs|
    ensures forall k :: k in Track(hs, i, l) <==> i < k < |hs| && hs[k] > l
    ensures forall a, b :: 0 <= a < b < |Track(hs, i, l)| ==> Track(hs, i, l)[a] < Track(hs, i, l)[b]
    decreases |hs| - i
  {
    var j := Nxt(hs, i, l);
    if j < |hs| {
      TrackOne(hs, j, l);
      var t, rest := Track(hs, i, l), Track(hs, j, l);
      assert t == [j] + rest;
      forall a, b | 0 <= a < b < |t|
        ensures t[a] < t[b]
      {
        assert t[b] == rest[b - 1] && rest[b - 1] in rest;
      }
    }
  }

  ghost function At(all: seq<SlNode>, j: nat): SlNode? {
    if j < |all| then all[j] else null
  }

  /** At level `l`, `n` leads to `to`. */
  ghost predicate LeadsTo(nx: Links, n: SlNode, l: nat, to: SlNode?) {
    n in nx && l < |nx[n]| && nx[n][l] == to
  }

  ghost predicate LinkOk(all: seq<SlNode>, hs: seq<nat>, nx: Links, l: nat, i: nat)
    requires i < |hs| == |all|
  {
    hs[i] > l ==> LeadsTo(nx, all[i], l, At(all, Nxt(hs, i, l)))
  }

  /** Every link of level `l` leads to the next tower that is high enough. */
  ghost predicate LevelOk(all: seq<SlNode>, hs: seq<nat>, nx: Links, l: nat) {
    |all| == |hs| && forall i :: 0 <= i < |hs| ==> LinkOk(all, hs, nx, l, i)
  }

  ghost predicate Distinct<T>(s: seq<T>) {
    forall i, j :: 0 <= i < j < |s| ==> s[i] != s[j]
  }

  // ---------------------------------------------------------------- inserting

  /** `s` with `x` behind place `p`. */
  ghost function Put<T>(s: seq<T>, p: nat, x: T): (t: seq<T>)
    requires p < |s|
    ensures |t| == |s| + 1 && t[p + 1] == x
  {
    s[..p + 1] + [x] + s[p + 1..]
  }

  /** `q` is the last place up to `p` whose tower reaches level `l`. */
  ghost predicate Straddles(hs: seq<nat>, q: nat, p: nat, l: nat) {
    q <= p < |hs| && hs[q] > l && Nxt(hs, q, l) > p
  }

  lemma {:induction false} NxtBefore(hs: seq<nat>, p: nat, h: nat, i: nat, l: nat)
    requires p < |hs| && i <= p
    ensures var j := Nxt(hs, i, l);
      Nxt(Put(hs, p, h), i, l) == if j <= p then j else if l < h then p + 1 else j + 1
  {
    var t, j := Put(hs, p, h), Nxt(hs, i, l);
    var r := if j <= p then j else if l < h then p + 1 else j + 1;
    assert r < |t| ==> t[r] == if j <= p then hs[j] else if l < h then h else hs[j];
    forall k | i < k < r
      ensures t[k] <= l
    {
      if k <= p { assert t[k] == hs[k]; } else if k > p + 1 { assert t[k] == hs[k - 1]; }
    }
    NxtIs(t, i, l, r);
  }

  lemma NxtBehind(hs: seq<nat>, p: nat, h: nat, i: nat, l: nat)
    requires p <= i < |hs|
    ensures Nxt(Put(hs, p, h), i + 1, l) == Nxt(hs, i, l) + 1
  {
    var t, j := Put(hs, p, h), Nxt(hs, i, l);
    assert j < |hs| ==> t[j + 1] == hs[j];
    forall k | i + 1 < k < j + 1
      ensures t[k] <= l
    {
      assert t[k] == hs[k - 1];
    }
    NxtIs(t, i + 1, l, j + 1);
  }

  /** Two places that straddle the same gap are the same. */
  lemma {:induction false} StraddlesOnce(hs: seq<nat>, q: nat, i: nat, p: nat, l: nat)
    requires Straddles(hs, q, p, l) && i <= p && hs[i] > l && Nxt(hs, i, l) > p
    ensures i == q
  {
    assert Reaches(hs, i, l, Nxt(hs, i, l)) && Reaches(hs, q, l, Nxt(hs, q, l));
  }

  lemma {:induction false} SameNext(hs: seq<nat>, q: nat, p: nat, l: nat)
    requires Straddles(hs, q, p, l)
    ensures Nxt(hs, q, l) == Nxt(hs, p, l)
  {
    NxtIs(hs, p, l, Nxt(hs, q, l));
  }

  lemma AtPut(all: seq<SlNode>, p: nat, node: SlNode, j: nat)
    requires p < |all| && p < j <= |all|
    ensures At(Put(all, p, node), j + 1) == At(all, j)
  {
    if j < |all| { assert Put(all, p, node)[j + 1] == all[j]; }
  }

  /** Links that stay as they are: those in front of the gap, */
  lemma {:induction false} LinkBefore(all: seq<SlNode>, hs: seq<nat>, nx: Links, p: nat, h: nat, l: nat, node: SlNode,
                                      i: nat)
    requires |all| == |hs| && p < |hs| && i <= p && LinkOk(all, hs, nx, l, i)
    requires (l >= h || hs[i] <= l || Nxt(hs, i, l) <= p)
    ensures LinkOk(Put(all, p, node), Put(hs, p, h), nx, l, i)
  {
    if hs[i] > l {
      var j := Nxt(hs, i, l);
      NxtBefore(hs, p, h, i, l);
      if j > p { AtPut(all, p, node, j); }
    }
  }

  /** and those behind it. */
  lemma LinkBehind(all: seq<SlNode>, hs: seq<nat>, nx: Links, p: nat, h: nat, l: nat, node: SlNode, i: nat)
    requires |all| == |hs| && p < i < |hs| && LinkOk(all, hs, nx, l, i)
    ensures LinkOk(Put(all, p, node), Put(hs, p, h), nx, l, i + 1)
  {
    assert Put(hs, p, h)[i + 1] == hs[i] && Put(all, p, node)[i + 1] == all[i];
    NxtBehind(hs, p, h, i, l);
    AtPut(all, p, node, Nxt(hs, i, l));
  }

  /** The last tower in front of the gap leads to the new node, and the new node where that tower led. */
  lemma LinkNew(all: seq<SlNode>, hs: seq<nat>, nx: Links, nx': Links, p: nat, q: nat, h: nat, l: nat, node: SlNode,
                to: SlNode?)
    requires |all| == |hs| && Straddles(hs, q, p, l) && l < h && LinkOk(all, hs, nx, l, q)
    requires LeadsTo(nx, all[q], l, to) && LeadsTo(nx', all[q], l, node) && LeadsTo(nx', node, l, to)
    ensures LinkOk(Put(all, p, node), Put(hs, p, h), nx', l, q)
    ensures LinkOk(Put(all, p, node), Put(hs, p, h), nx', l, p + 1)
  {
    NxtBefore(hs, p, h, q, l);
    NxtBehind(hs, p, h, p, l);
    SameNext(hs, q, p, l);
    AtPut(all, p, node, Nxt(hs, p, l));
  }

  lemma SameLink(all: seq<SlNode>, hs: seq<nat>, nx: Links, nx': Links, l: nat, i: nat)
    requires i < |hs| == |all| && LinkOk(all, hs, nx, l, i)
    requires all[i] in nx ==> all[i] in nx' && nx'[all[i]] == nx[all[i]]
    ensures LinkOk(all, hs, nx', l, i)
  {
  }

  /** Linking a node in at a level its tower reaches. */
  lemma InsertLevel(all: seq<SlNode>, hs: seq<nat>, nx: Links, nx': Links, p: nat, q: nat, h: nat, l: nat,
                    node: SlNode, to: SlNode?)
    requires LevelOk(all, hs, nx, l) && Straddles(hs, q, p, l) && l < h
    requires LeadsTo(nx, all[q], l, to) && LeadsTo(nx', all[q], l, node) && LeadsTo(nx', node, l, to)
    requires forall i :: 0 <= i < |all| && i != q && all[i] in nx ==> all[i] in nx' && nx'[all[i]] == nx[all[i]]
    ensures LevelOk(Put(all, p, node), Put(hs, p, h), nx', l)
  {
    assert LinkOk(all, hs, nx, l, q);
    LinkNew(all, hs, nx, nx', p, q, h, l, node, to);
    hide Put, LinkOk, Straddles;
    var all', hs' := Put(all, p, node), Put(hs, p, h);
    forall i | 0 <= i < |hs'|
      ensures LinkOk(all', hs', nx', l, i)
    {
      if i <= p && i != q {
        assert LinkOk(all, hs, nx, l, i);
        if hs[i] > l && Nxt(hs, i, l) > p { StraddlesOnce(hs, q, i, p, l); }
        SameLink(all, hs, nx, nx', l, i);
        LinkBefore(all, hs, nx', p, h, l, node, i);
      } else if i > p + 1 {
        assert LinkOk(all, hs, nx, l, i - 1);
        SameLink(all, hs, nx, nx', l, i - 1);
        LinkBehind(all, hs, nx', p, h, l, node, i - 1);
      }
    }
  }

  /** At a level above its tower, a node goes in without a link. */
  lemma PassLevel(all: seq<SlNode>, hs: seq<nat>, nx: Links, p: nat, h: nat, l: nat, node: SlNode)
    requires LevelOk(all, hs, nx, l) && p < |hs| && l >= h
    ensures LevelOk(Put(all, p, node), Put(hs, p, h), nx, l)
  {
    var all', hs' := Put(all, p, node), Put(hs, p, h);
    forall i | 0 <= i < |hs'|
      ensures LinkOk(all', hs', nx, l, i)
    {
      if i <= p {
        assert LinkOk(all, hs, nx, l, i);
        LinkBefore(all, hs, nx, p, h, l, node, i);
      } else if i > p + 1 {
        assert LinkOk(all, hs, nx, l, i - 1);
        LinkBehind(all, hs, nx, p, h, l, node, i - 1);
      }
    }
  }

  /** Links that agree at level `l`. */
  ghost predicate SameColumn(all: seq<SlNode>, nx: Links, nx': Links, l: nat) {
    forall n :: n in all && n in nx && l < |nx[n]| ==> LeadsTo(nx', n, l, nx[n][l])
  }

  lemma OtherLevel(all: seq<SlNode>, hs: seq<nat>, nx: Links, nx': Links, l: nat)
    requires LevelOk(all, hs, nx, l) && SameColumn(all, nx, nx', l)
    ensures LevelOk(all, hs, nx', l)
  {
    forall i | 0 <= i < |hs|
      ensures LinkOk(all, hs, nx', l, i)
    {
      assert LinkOk(all, hs, nx, l, i) && all[i] in all;
    }
  }

  // ---------------------------------------------------------------- removing

  /** `s` without the places behind `p` up to `r`. */
  ghost function Cut<T>(s: seq<T>, p: nat, r: nat): (t: seq<T>)
    requires p <= r < |s|
    ensures |t| == |s| - (r - p)
  {
    s[..p + 1] + s[r + 1..]
  }

  lemma {:induction false} CutBefore(hs: seq<nat>, p: nat, r: nat, i: nat, l: nat)
    requires p <= r < |hs| && i <= p
    ensures Nxt(Cut(hs, p, r), i, l) == if Nxt(hs, i, l) <= p then Nxt(hs, i, l) else Nxt(hs, r, l) - (r - p)
  {
    var t, d := Cut(hs, p, r), r - p;
    var j := if Nxt(hs, i, l) <= p then Nxt(hs, i, l) else Nxt(hs, r, l) - d;
    forall k | i < k < j
      ensures t[k] <= l
    {
      if k <= p { assert t[k] == hs[k]; } else { assert t[k] == hs[k + d]; }
    }
    assert j < |t| ==> t[j] == if j <= p then hs[j] else hs[j + d];
    NxtIs(t, i, l, j);
  }

  lemma CutBehind(hs: seq<nat>, p: nat, r: nat, i: nat, l: nat)
    requires p <= r < i < |hs|
    ensures Nxt(Cut(hs, p, r), i - (r - p), l) == Nxt(hs, i, l) - (r - p)
  {
    var t, d, j := Cut(hs, p, r), r - p, Nxt(hs, i, l);
    forall k | i - d < k < j - d
      ensures t[k] <= l
    {
      assert t[k] == hs[k + d];
    }
    assert j < |hs| ==> t[j - d] == hs[j];
    NxtIs(t, i - d, l, j - d);
  }

  lemma AtCut(all: seq<SlNode>, p: nat, r: nat, j: nat)
    requires p <= r < j <= |all|
    ensures At(Cut(all, p, r), j - (r - p)) == At(all, j)
  {
    if j < |all| { assert Cut(all, p, r)[j - (r - p)] == all[j]; }
  }

  lemma {:induction false} LinkCutBefore(all: seq<SlNode>, hs: seq<nat>, nx: Links, p: nat, r: nat, l: nat, i: nat)
    requires |all| == |hs| && p <= r < |hs| && i <= p && LinkOk(all, hs, nx, l, i) && (hs[i] <= l || Nxt(hs, i, l) <= p)
    ensures LinkOk(Cut(all, p, r), Cut(hs, p, r), nx, l, i)
  {
    CutBefore(hs, p, r, i, l);
  }

  lemma LinkCutBehind(all: seq<SlNode>, hs: seq<nat>, nx: Links, p: nat, r: nat, l: nat, i: nat)
    requires |all| == |hs| && p <= r < i < |hs| && LinkOk(all, hs, nx, l, i)
    ensures LinkOk(Cut(all, p, r), Cut(hs, p, r), nx, l, i - (r - p))
  {
    assert Cut(all, p, r)[i - (r - p)] == all[i] && Cut(hs, p, r)[i - (r - p)] == hs[i];
    CutBehind(hs, p, r, i, l);
    AtCut(all, p, r, Nxt(hs, i, l));
  }

  lemma {:induction false} LinkCutAt(all: seq<SlNode>, hs: seq<nat>, nx: Links, p: nat, r: nat, q: nat, l: nat)
    requires |all| == |hs| && p <= r < |hs| && Straddles(hs, q, p, l)
    requires LeadsTo(nx, all[q], l, At(all, Nxt(hs, r, l)))
    ensures LinkOk(Cut(all, p, r), Cut(hs, p, r), nx, l, q)
  {
    CutBefore(hs, p, r, q, l);
    AtCut(all, p, r, Nxt(hs, r, l));
  }

  /** Once the last tower in front of the gap leads across it, the level is as it should be without the gap. */
  lemma {:induction false} RemoveLevel(all: seq<SlNode>, hs: seq<nat>, nx: Links, nx': Links, p: nat, r: nat, q: nat,
                                       l: nat)
    requires LevelOk(all, hs, nx, l) && Straddles(hs, q, p, l) && p <= r < |hs|
    requires LeadsTo(nx', all[q], l, At(all, Nxt(hs, r, l)))
    requires forall i :: 0 <= i < |all| && i != q && all[i] in nx ==> all[i] in nx' && nx'[all[i]] == nx[all[i]]
    ensures LevelOk(Cut(all, p, r), Cut(hs, p, r), nx', l)
  {
    hide Cut, LinkOk, Straddles;
    LinkCutAt(all, hs, nx', p, r, q, l);
    var all', hs' := Cut(all, p, r), Cut(hs, p, r);
    forall i | 0 <= i < |hs'|
      ensures LinkOk(all', hs', nx', l, i)
    {
      if i <= p && i != q {
        assert LinkOk(all, hs, nx, l, i);
        if hs[i] > l && Nxt(hs, i, l) > p { StraddlesOnce(hs, q, i, p, l); }
        SameLink(all, hs, nx, nx', l, i);
        LinkCutBefore(all, hs, nx', p, r, l, i);
      } else if i > p {
        var k := i + (r - p);
        StraddlesAt(hs, q, p, l);
        assert LinkOk(all, hs, nx, l, k);
        SameLink(all, hs, nx, nx', l, k);
        LinkCutBehind(all, hs, nx', p, r, l, k);
      }
    }
  }

  lemma {:induction false} StraddlesAt(hs: seq<nat>, q: nat, p: nat, l: nat)
    requires Straddles(hs, q, p, l)
    ensures q <= p < |hs| && hs[q] > l && Nxt(hs, q, l) > p
  {
  }

  /** A gap without towers at level `l` needs no work there. */
  lemma {:induction false} NoTowers(hs: seq<nat>, q: nat, p: nat, r: nat, l: nat)
    requires Straddles(hs, q, p, l) && p <= r < |hs| && Nxt(hs, q, l) > r
    ensures Nxt(hs, r, l) == Nxt(hs, q, l)
  {
    NxtIs(hs, r, l, Nxt(hs, q, l));
  }
}
