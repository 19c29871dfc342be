/** What a skip list stands for: a sorted sequence of values. */
module SkipSpec {
  import opened Values

  /** `compare`, and where it finds no difference `compare2` if it takes part. */
  function Cmp(both: bool, a: Value, b: Value): int {
    var c := Compare(a, b);
    if c != 0 || !both then c else a.sub - b.sub
  }

  ghost predicate Ordered(both: bool, s: seq<Value>) {
    forall i, j :: 0 <= i < j < |s| ==> Cmp(both, s[i], s[j]) < 0
  }

  /** `v` goes to its place, or replaces the value it compares equal to. */
  ghost function SetIn(both: bool, s: seq<Value>, v: Value): seq<Value> {
    if s == [] || Cmp(both, s[0], v) > 0 then [v] + s
    else if Cmp(both, s[0], v) == 0 then [v] + s[1..]
    else [s[0]] + SetIn(both, s[1..], v)
  }

  lemma {:induction false} SetAt(both: bool, s: seq<Value>, v: Value, p: nat)
    requires p <= |s| && (forall i :: 0 <= i < p ==> Cmp(both, s[i], v) < 0) && (p < |s| ==> Cmp(both, s[p], v) >= 0)
    ensures SetIn(both, s, v) == s[..p] + [v] + if p < |s| && Cmp(both, s[p], v) == 0 then s[p + 1..] else s[p..]
  {
    if p == 0 {
      assert s[..0] == [] && s[0..] == s;
    } else {
      SetAt(both, s[1..], v, p - 1);
      assert [s[0]] + s[1..][..p - 1] == s[..p] && s[1..][p - 1..] == s[p..];
      assert p < |s| ==> s[1..][p..] == s[p + 1..];
    }
  }

  lemma {:induction false} SetMembers(both: bool, s: seq<Value>, v: Value, x: Value)
    requires Ordered(both, s)
    ensures x in SetIn(both, s, v) <==> x == v || (x in s && Cmp(both, x, v) != 0)
  {
    if s != [] {
      assert s == [s[0]] + s[1..] && Ordered(both, s[1..]);
      if Cmp(both, s[0], v) < 0 {
        SetMembers(both, s[1..], v, x);
      } else if x in s[1..] {
        var i :| 0 <= i < |s[1..]| && s[1..][i] == x;
        assert Cmp(both, s[0], s[i + 1]) < 0;
      }
    }
  }

  lemma {:induction false} SetOrdered(both: bool, s: seq<Value>, v: Value)
    requires Ordered(both, s)
    ensures Ordered(both, SetIn(both, s, v))
  {
    if s != [] {
      assert forall j :: 0 < j < |s| ==> s[1..][j - 1] == s[j];
      assert Ordered(both, s[1..]);
      if Cmp(both, s[0], v) < 0 {
        SetOrdered(both, s[1..], v);
        forall x | x in SetIn(both, s[1..], v)
          ensures Cmp(both, s[0], x) < 0
        {
          SetMembers(both, s[1..], v, x);
        }
        OrderedCons(both, s[0], SetIn(both, s[1..], v));
      } else if Cmp(both, s[0], v) == 0 {
        OrderedCons(both, v, s[1..]);
      } else {
        OrderedCons(both, v, s);
      }
    }
  }

  lemma OrderedCons(both: bool, x: Value, s: seq<Value>)
    requires Ordered(both, s) && forall y :: y in s ==> Cmp(both, x, y) < 0
    ensures Ordered(both, [x] + s)
  {
    var t := [x] + s;
    assert forall j :: 0 < j < |t| ==> t[j] == s[j - 1] && s[j - 1] in s;
  }

  /** Within the closed interval, seen by `compare` alone. */
  predicate Inside(lo: Value, hi: Value, v: Value) {
    Compare(lo, v) <= 0 && Compare(v, hi) <= 0
  }

  ghost function Interval(s: seq<Value>, lo: Value, hi: Value): seq<Value> {
    if s == [] then [] else (if Inside(lo, hi, s[0]) then [s[0]] else []) + Interval(s[1..], lo, hi)
  }

  ghost function Outside(s: seq<Value>, lo: Value, hi: Value): seq<Value> {
    if s == [] then [] else (if Inside(lo, hi, s[0]) then [] else [s[0]]) + Outside(s[1..], lo, hi)
  }

  /** Stretches of the tail, as stretches of the whole. */
  lemma TailStretch(s: seq<Value>, a: nat, b: nat)
    requires s != [] && a <= b < |s|
    ensures s[1..][a..b] == s[a + 1..b + 1] && s[1..][b..] == s[b + 1..] && [s[0]] + s[1..][..b] == s[..b + 1]
  {
  }

  lemma WholeStretch(s: seq<Value>)
    ensures s[..0] == [] && s[0..0] == [] && s[0..] == s && s[..0] + s[0..] == s
  {
  }

  lemma {:induction false} IntervalHead(s: seq<Value>, lo: Value, hi: Value)
    requires s != []
    ensures Interval(s, lo, hi) ==
      if Inside(lo, hi, s[0]) then [s[0]] + Interval(s[1..], lo, hi) else Interval(s[1..], lo, hi)
    ensures Outside(s, lo, hi) ==
      if Inside(lo, hi, s[0]) then Outside(s[1..], lo, hi) else [s[0]] + Outside(s[1..], lo, hi)
  {
  }

  /** A first value outside shifts the stretch, */
  lemma StretchShift(s: seq<Value>, p: nat, r: nat)
    requires s != [] && p <= r < |s|
    ensures s[1..][p..r] == s[p + 1..r + 1] && [s[0]] + (s[1..][..p] + s[1..][r..]) == s[..p + 1] + s[r + 1..]
  {
    TailStretch(s, p, p);
    TailStretch(s, p, r);
    var a, b := s[1..][..p], s[1..][r..];
    assert [s[0]] + (a + b) == [s[0]] + a + b;
  }

  /** and one inside makes it longer. */
  lemma StretchGrow(s: seq<Value>, r: nat)
    requires s != [] && r < |s|
    ensures [s[0]] + s[1..][0..r] == s[0..r + 1] && s[1..][..0] + s[1..][r..] == s[..0] + s[r + 1..]
  {
    TailStretch(s, 0, r);
    assert s[1..][0..r] == s[1..][..r] && s[0..r + 1] == s[..r + 1];
    assert s[1..][..0] == s[..0];
  }

  /** In a sorted sequence the interval is one stretch. */
  lemma {:induction false} IntervalAt(s: seq<Value>, lo: Value, hi: Value, p: nat, r: nat)
    requires p <= r <= |s|
    requires forall i :: 0 <= i < |s| ==> (Inside(lo, hi, s[i]) <==> p <= i < r)
    ensures Interval(s, lo, hi) == s[p..r] && Outside(s, lo, hi) == s[..p] + s[r..]
  {
    hide *;
    if s == [] {
      NoValues(lo, hi);
      WholeStretch(s);
    } else {
      var t := s[1..];
      assert forall i :: 0 <= i < |t| ==> t[i] == s[i + 1];
      assert Inside(lo, hi, s[0]) <==> p == 0 < r;
      IntervalHead(s, lo, hi);
      if p > 0 {
        IntervalAt(t, lo, hi, p - 1, r - 1);
        StretchShift(s, p - 1, r - 1);
      } else if r > 0 {
        IntervalAt(t, lo, hi, 0, r - 1);
        StretchGrow(s, r - 1);
      } else {
        IntervalAt(t, lo, hi, 0, 0);
        WholeStretch(t);
        WholeStretch(s);
        assert s == [s[0]] + t;
      }
    }
  }

  lemma {:induction false} NoValues(lo: Value, hi: Value)
    ensures Interval([], lo, hi) == [] && Outside([], lo, hi) == []
  {
  }

  lemma {:induction false} IntervalSize(s: seq<Value>, lo: Value, hi: Value)
    ensures |Interval(s, lo, hi)| + |Outside(s, lo, hi)| == |s|
    ensures multiset(Interval(s, lo, hi)) + multiset(Outside(s, lo, hi)) == multiset(s)
  {
    if s != [] {
      IntervalSize(s[1..], lo, hi);
      assert s == [s[0]] + s[1..];
    }
  }

  /** At most `limit` elements from the front. */
  ghost function First(s: seq<Value>, limit: int): seq<Value> {
    if limit <= 0 then [] else if limit >= |s| then s else s[..limit]
  }

  ghost function Reverse(s: seq<Value>): (t: seq<Value>)
    ensures |t| == |s|
  {
    if s == [] then [] else [s[|s| - 1]] + Reverse(s[..|s| - 1])
  }

  lemma {:induction false} ReverseAt(s: seq<Value>, i: nat)
    requires i < |s|
    ensures Reverse(s)[i] == s[|s| - 1 - i]
  {
    if i > 0 { ReverseAt(s[..|s| - 1], i - 1); }
  }
}
