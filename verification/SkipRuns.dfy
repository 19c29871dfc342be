/** Runs of operations on skip lists, and what the heights of the towers have to do with them. */
module SkipRuns {
  import opened Values
  import opened Slices
  import opened SkipSpec
  import opened SkipLinks
  import opened SkipList

  /** `h` is the height that a new tower gets. */
  datatype Op =
    | Put(value: Value, h: nat)
    | Get(key: Value)
    | Range(key1: Value, key2: Value, limit: int)
    | Remove(key1: Value, key2: Value)
    | Clear

  datatype Reply = Done | Got(value: Value, ok: bool) | Listed(values: seq<Value>) | Removed(count: nat)

  /** A sorted sequence, and the heights of the towers, that of the head first. */
  datatype State = State(values: seq<Value>, heights: seq<nat>)

  ghost predicate Fitting(two: bool, s: State) {
    |s.heights| == |s.values| + 1 && Ordered(two, s.values)
  }

  /** The state after the operation; no height has a part in the sorted sequence. */
  ghost function After(two: bool, s: State, op: Op): State {
    match op
    case Put(v, h) => State(SetIn(two, s.values, v), SetHeights(two, s.values, s.heights, v, h))
    case Get(_) => s
    case Range(_, _, _) => s
    case Remove(a, b) =>
      State(Outside(s.values, Lower(a, b), Upper(a, b)), CutHeights(s.values, s.heights, Lower(a, b), Upper(a, b)))
    case Clear => State([], [MAX_LEVEL])
  }

  /** The value at the place where a search for `key` stops, if it compares equal. */
  ghost function Lookup(s: State, key: Value): Reply {
    var at := StopPlace(s.heights, s.values, key, true);
    if EqualAt(s.values, key, at) then Got(s.values[at - 1], true) else Got(EMPTY_VALUE, false)
  }

  /** What is answered; the heights have a part in it. */
  ghost function Answer(s: State, op: Op): Reply {
    match op
    case Put(_, _) => Done
    case Get(key) => Lookup(s, key)
    case Range(a, b, limit) => Listed(Listing(s.heights, s.values, a, b, limit))
    case Remove(a, b) => Removed(|Interval(s.values, Lower(a, b), Upper(a, b))|)
    case Clear => Done
  }

  /** What a caller means to be answered. */
  ghost predicate Right(s: seq<Value>, op: Op, reply: Reply) {
    match op
    case Put(_, _) => reply == Done
    case Get(key) =>
      && reply.Got? && (reply.ok <==> exists v :: v in s && Compare(v, key) == 0)
      && (if reply.ok then reply.value in s && Compare(reply.value, key) == 0 else reply.value == EMPTY_VALUE)
    case Range(a, b, limit) => reply == Listed(First(Wanted(s, a, b), limit))
    case Remove(a, b) => reply == Removed(|Interval(s, Lower(a, b), Upper(a, b))|)
    case Clear => reply == Done
  }

  /** With one comparator only one answer is right. */
  lemma {:induction false} OneAnswer(s: seq<Value>, op: Op, a: Reply, b: Reply)
    requires Ordered(false, s) && Right(s, op, a) && Right(s, op, b)
    ensures a == b
  {
    if op.Get? && a.ok {
      var i :| 0 <= i < |s| && s[i] == a.value;
      var j :| 0 <= j < |s| && s[j] == b.value;
    }
  }

  lemma {:induction false} SomeTallest(hs: seq<nat>, vs: seq<Value>, key: Value, i: int, n: int) returns (j: int)
    requires |hs| == |vs| + 1 && EqualAt(vs, key, i) && i < n <= |hs|
    requires forall k :: EqualAt(vs, key, k) && k < i ==> false
    ensures i <= j < n && EqualAt(vs, key, j)
    ensures forall k :: EqualAt(vs, key, k) && k < n ==> hs[k] <= hs[j] && (k < j ==> hs[k] < hs[j])
  {
    if n == i + 1 {
      j := i;
    } else {
      j := SomeTallest(hs, vs, key, i, n - 1);
      if EqualAt(vs, key, n - 1) && hs[n - 1] > hs[j] {
        j := n - 1;
      }
    }
  }

  lemma {:induction false} FirstEqual(vs: seq<Value>, key: Value, i: int) returns (f: int)
    requires EqualAt(vs, key, i)
    ensures EqualAt(vs, key, f) && forall k :: EqualAt(vs, key, k) ==> f <= k
    decreases i
  {
    if k :| EqualAt(vs, key, k) && k < i {
      f := FirstEqual(vs, key, k);
    } else {
      f := i;
    }
  }

  /** If some value compares equal, one of them has the tallest tower. */
  lemma {:induction false} TallestThere(hs: seq<nat>, vs: seq<Value>, key: Value, i: int)
    requires |hs| == |vs| + 1 && EqualAt(vs, key, i)
    ensures exists j: nat :: Tallest(hs, vs, key, j)
  {
    var f := FirstEqual(vs, key, i);
    var j := SomeTallest(hs, vs, key, f, |hs|);
    assert Tallest(hs, vs, key, j as nat);
  }

  lemma {:induction false} LookupRight(two: bool, s: State, key: Value)
    requires Fitting(two, s)
    ensures Right(s.values, Get(key), Lookup(s, key))
  {
    var at := StopPlace(s.heights, s.values, key, true);
    if i :| 0 <= i < |s.values| && Compare(s.values[i], key) == 0 {
      assert EqualAt(s.values, key, i + 1);
      TallestThere(s.heights, s.values, key, i + 1);
      assert EqualAt(s.values, key, at);
    }
  }

  /** Every answer is right but for a range, and that is if it starts at the first of the values that compare equal. */
  lemma {:induction false} AnswerRight(two: bool, s: State, op: Op)
    requires Fitting(two, s)
    ensures !op.Range? ==> Right(s.values, op, Answer(s, op))
    ensures op.Range? ==> (Right(s.values, op, Answer(s, op)) <==>
                           op.limit <= 0 || StartsRight(s.heights, s.values, op.key1, op.key2))
  {
    match op
    case Get(key) =>
      LookupRight(two, s, key);
    case Range(a, b, limit) =>
      ListingRight(two, s, a, b, limit);
    case _ =>
  }

  lemma {:induction false} ListingRight(two: bool, s: State, a: Value, b: Value, limit: int)
    requires Fitting(two, s)
    ensures Listing(s.heights, s.values, a, b, limit) == First(Wanted(s.values, a, b), limit)
      <==> limit <= 0 || StartsRight(s.heights, s.values, a, b)
  {
    OrderedKeys(two, s.values);
    var down := Compare(a, b) > 0;
    var at := StopPlace(s.heights, s.values, a, down);
    StopPlaceThere(s.heights, s.values, a, down);
    if down {
      DownPlace(s.heights, s.values, a, b, at, BelowOf(s.values, b));
      DownExact(two, s.heights, s.values, a, b, at, limit);
      ListingDown(s.heights, s.values, a, b, limit, at);
    } else {
      UpPlace(s.heights, s.values, a, b, at, UpTo(s.values, b));
      UpExact(two, s.heights, s.values, a, b, at, limit);
      ListingUp(s.heights, s.values, a, b, limit, at);
    }
  }

  lemma {:induction false} StopPlaceThere(hs: seq<nat>, vs: seq<Value>, key: Value, down: bool)
    requires |hs| == |vs| + 1 && KeysAscend(vs)
    ensures var at := StopPlace(hs, vs, key, down);
      Tallest(hs, vs, key, at) || (if down then Absent(vs, key, at) else at > 0 && Absent(vs, key, at - 1))
  {
    if i :| 0 <= i < |vs| && Compare(vs[i], key) == 0 {
      assert EqualAt(vs, key, i + 1);
      TallestThere(hs, vs, key, i + 1);
    } else {
      forall j: nat
        ensures !Tallest(hs, vs, key, j)
      {
        assert !EqualAt(vs, key, j);
      }
      EndsOf(vs, key, key);
      assert Absent(vs, key, BelowOf(vs, key));
    }
  }

  /** Heights that chance may have given to the towers of these values. */
  ghost predicate Heights(hs: seq<nat>, vs: seq<Value>) {
    |hs| == |vs| + 1 && hs[0] == MAX_LEVEL && forall i :: 0 <= i < |hs| ==> 1 <= hs[i] <= MAX_LEVEL
  }

  /** No two values compare equal to the key. */
  ghost predicate AtMostOne(vs: seq<Value>, key: Value) {
    forall i, j :: EqualAt(vs, key, i) && EqualAt(vs, key, j) ==> i == j
  }

  /** Towers of height 1, and one that may be taller. */
  ghost function Flat(n: nat, at: nat, h: nat): seq<nat> {
    seq(n + 1, i => if i == 0 then MAX_LEVEL else if i == at then h else 1)
  }

  /** Of two values that compare equal, chance can put the tower of the wrong one in the way: the first one when the
      range goes down, the second one when it goes up. */
  lemma {:induction false} WrongStart(vs: seq<Value>, a: Value, b: Value, i: int, j: int) returns (hs: seq<nat>)
    requires EqualAt(vs, a, i) && EqualAt(vs, a, j) && i < j
    ensures Heights(hs, vs) && !StartsRight(hs, vs, a, b)
  {
    if Compare(a, b) > 0 {
      hs := Flat(|vs|, 0, 1);
      var f := FirstEqual(vs, a, i);
      assert Tallest(hs, vs, a, f);
    } else {
      hs := Flat(|vs|, j, 2);
      assert Tallest(hs, vs, a, j);
    }
  }

  /** A range is right whatever heights chance picks if and only if nothing is asked for or at most one value compares
      equal to its start. */
  lemma {:induction false} RangeCertain(two: bool, vs: seq<Value>, a: Value, b: Value, limit: int)
    requires Ordered(two, vs)
    ensures (forall hs :: Heights(hs, vs) ==> Listing(hs, vs, a, b, limit) == First(Wanted(vs, a, b), limit))
      <==> limit <= 0 || AtMostOne(vs, a)
  {
    hide Listing, First, Wanted, StartsRight, EqualAt, Ordered;
    forall hs | Heights(hs, vs)
      ensures Listing(hs, vs, a, b, limit) == First(Wanted(vs, a, b), limit)
        <==> limit <= 0 || StartsRight(hs, vs, a, b)
      ensures AtMostOne(vs, a) ==> StartsRight(hs, vs, a, b)
    {
      ListingRight(two, State(vs, hs), a, b, limit);
      if AtMostOne(vs, a) {
        OneStart(hs, vs, a, b);
      }
    }
    if limit > 0 && !AtMostOne(vs, a) {
      var i, j :| EqualAt(vs, a, i) && EqualAt(vs, a, j) && i != j;
      var hs := WrongStart(vs, a, b, if i < j then i else j, if i < j then j else i);
      assert Listing(hs, vs, a, b, limit) != First(Wanted(vs, a, b), limit);
    }
  }

  lemma OneStart(hs: seq<nat>, vs: seq<Value>, a: Value, b: Value)
    requires AtMostOne(vs, a)
    ensures StartsRight(hs, vs, a, b)
  {
  }

  lemma {:induction false} AfterFits(two: bool, s: State, op: Op)
    requires Fitting(two, s)
    ensures Fitting(two, After(two, s, op))
  {
    match op
    case Put(v, h) =>
      SetOrdered(two, s.values, v);
      SetFits(two, s.values, s.heights, v, h);
    case Remove(a, b) =>
      OrderedKeys(two, s.values);
      EndsOf(s.values, Lower(a, b), Upper(a, b));
      var p, r := BelowOf(s.values, Lower(a, b)), UpTo(s.values, Upper(a, b));
      StretchAt(s.values, Lower(a, b), Upper(a, b), p, r);
      OrderedCut(two, s.values, p, r);
    case _ =>
  }

  lemma {:induction false} SetFits(two: bool, vs: seq<Value>, hs: seq<nat>, v: Value, h: nat)
    requires |hs| == |vs| + 1
    ensures |SetHeights(two, vs, hs, v, h)| == |SetIn(two, vs, v)| + 1
  {
    var p := SetPlace(two, vs, v);
    SetPlaceAt(two, vs, v);
    SetAt(two, vs, v, p);
  }

  lemma {:induction false} SetPlaceAt(two: bool, vs: seq<Value>, v: Value)
    ensures var p := SetPlace(two, vs, v);
      (forall i :: 0 <= i < p ==> Cmp(two, vs[i], v) < 0) && (p < |vs| ==> Cmp(two, vs[p], v) >= 0)
  {
    if vs != [] && Cmp(two, vs[0], v) < 0 {
      SetPlaceAt(two, vs[1..], v);
      var p := SetPlace(two, vs, v);
      forall i | 0 <= i < p
        ensures Cmp(two, vs[i], v) < 0
      {
        assert i > 0 ==> vs[i] == vs[1..][i - 1];
      }
    }
  }

  ghost function AfterAll(two: bool, s: State, ops: seq<Op>): State {
    if ops == [] then s else After(two, AfterAll(two, s, ops[..|ops| - 1]), ops[|ops| - 1])
  }

  /** The answers of a run. */
  ghost function AnswerAll(two: bool, s: State, ops: seq<Op>): (replies: seq<Reply>)
    ensures |replies| == |ops|
  {
    if ops == [] then []
    else
      var n := |ops| - 1;
      AnswerAll(two, s, ops[..n]) + [Answer(AfterAll(two, s, ops[..n]), ops[n])]
  }

  /** The same operations, but for the heights that chance picks. */
  ghost predicate SameButHeights(ops: seq<Op>, ops': seq<Op>) {
    |ops| == |ops'| && forall i {:trigger ops[i]} :: 0 <= i < |ops| ==>
      ops[i] == ops'[i] || (ops[i].Put? && ops'[i].Put? && ops[i].value == ops'[i].value)
  }

  /** Two lists with the same values, in towers of whatever heights: the same operations with whatever heights lead
      to the same values again, and with one comparator to the same answers. */
  lemma {:induction false} HeightsHidden(two: bool, s: State, s': State, ops: seq<Op>, ops': seq<Op>)
    requires Fitting(two, s) && Fitting(two, s') && s.values == s'.values && SameButHeights(ops, ops')
    ensures Fitting(two, AfterAll(two, s, ops)) && Fitting(two, AfterAll(two, s', ops'))
    ensures AfterAll(two, s, ops).values == AfterAll(two, s', ops').values
    ensures !two ==> AnswerAll(two, s, ops) == AnswerAll(two, s', ops')
  {
    if ops != [] {
      var n := |ops| - 1;
      assert forall i :: 0 <= i < n ==> ops[..n][i] == ops[i] && ops'[..n][i] == ops'[i];
      HeightsHidden(two, s, s', ops[..n], ops'[..n]);
      var t, t' := AfterAll(two, s, ops[..n]), AfterAll(two, s', ops'[..n]);
      assert ops[n] == ops[n];
      AfterFits(two, t, ops[n]);
      AfterFits(two, t', ops'[n]);
      if !two {
        SameAnswer(t, t', ops[n], ops'[n]);
      }
    }
  }

  lemma {:induction false} SameAnswer(s: State, s': State, op: Op, op': Op)
    requires Fitting(false, s) && Fitting(false, s') && s.values == s'.values
    requires op == op' || (op.Put? && op'.Put?)
    ensures Answer(s, op) == Answer(s', op')
  {
    hide Answer, Right;
    AnswerIs(s, op);
    AnswerIs(s', op');
    if op == op' {
      OneAnswer(s.values, op, Answer(s, op), Answer(s', op));
    } else {
      PutAnswer(s, op);
      PutAnswer(s', op');
    }
  }

  lemma PutAnswer(s: State, op: Op)
    requires op.Put?
    ensures Answer(s, op) == Done
  {
  }

  lemma {:induction false} AnswerIs(s: State, op: Op)
    requires Fitting(false, s)
    ensures Right(s.values, op, Answer(s, op))
  {
    AnswerRight(false, s, op);
    if op.Range? {
      UniqueStarts(s.heights, s.values, op.key1, op.key2);
    }
  }

  // ---------------------------------------------------------------- the lists themselves

  ghost function StateIn(sl: SkipList): State
    reads sl
  {
    State(sl.contents, sl.hs)
  }

  lemma {:induction false} GetAnswer(sl: SkipList, key: Value, value: Value, ok: bool)
    requires sl.Valid() && (ok <==> exists i :: EqualAt(sl.contents, key, i))
    requires ok ==> exists i :: Tallest(sl.hs, sl.contents, key, i) && value == sl.contents[i - 1]
    requires !ok ==> value == EMPTY_VALUE
    ensures Got(value, ok) == Lookup(StateIn(sl), key)
  {
    OrderedKeys(sl.two, sl.contents);
    if ok {
      var i :| Tallest(sl.hs, sl.contents, key, i) && value == sl.contents[i - 1];
      StopPlaceIs(sl.hs, sl.contents, key, true, i);
    }
  }

  lemma {:induction false} FittingIn(sl: SkipList)
    requires sl.Valid()
    ensures Fitting(sl.two, StateIn(sl)) && sl.head in sl.all
  {
    sl.Parts();
  }

  method Step(sl: SkipList, op: Op) returns (reply: Reply)
    requires sl.Valid() && |sl.contents| < LONG_MAX && (op.Put? ==> 1 <= op.h <= MAX_LEVEL)
    modifies sl, sl.all
    ensures sl.Valid() && StateIn(sl) == After(sl.two, old(StateIn(sl)), op)
    ensures reply == Answer(old(StateIn(sl)), op)
    ensures forall n :: n in sl.all ==> n in old(sl.all) || fresh(n)
  {
    hide SkipList.Valid, SetIn, SetHeights, Outside, CutHeights, Interval, Listing, Tallest, EqualAt, Lookup;
    hide Lower, Upper;
    FittingIn(sl);
    match op {
      case Put(v, h) =>
        sl.Set(v, h);
        reply := Done;
      case Get(key) =>
        var value, ok := sl.Get(key);
        GetAnswer(sl, key, value, ok);
        reply := Got(value, ok);
      case Range(a, b, limit) =>
        reply := StepRange(sl, a, b, limit);
      case Remove(a, b) =>
        var count := sl.Remove(a, b);
        reply := Removed(count);
      case Clear =>
        sl.Clear();
        reply := Done;
    }
  }

  method StepRange(sl: SkipList, a: Value, b: Value, limit: int) returns (reply: Reply)
    requires sl.Valid() && |sl.contents| < LONG_MAX
    ensures sl.Valid() && reply == Listed(Listing(sl.hs, sl.contents, a, b, limit))
  {
    hide SkipList.Valid, Listing, First, StartsRight;
    var data := new Slice<Value>(0, 0);
    ghost var was := data.View();
    ghost var out := sl.Range(data, a, b, limit);
    assert was == [] && data.View() == out;
    reply := Listed(data.data.data[data.pos..data.pos + data.len]);
  }

  /** Any run of operations does what the same run on a sorted sequence does, and the heights of the towers decide
      only where a range among values that compare equal starts. */
  method Run(sl: SkipList, ops: seq<Op>) returns (replies: seq<Reply>)
    requires sl.Valid() && |sl.contents| + |ops| <= LONG_MAX
    requires forall i :: 0 <= i < |ops| && ops[i].Put? ==> 1 <= ops[i].h <= MAX_LEVEL
    modifies sl, sl.all
    ensures sl.Valid() && StateIn(sl) == AfterAll(sl.two, old(StateIn(sl)), ops)
    ensures replies == AnswerAll(sl.two, old(StateIn(sl)), ops)
    ensures forall n :: n in sl.all ==> n in old(sl.all) || fresh(n)
  {
    hide SkipList.Valid, After, Answer;
    ghost var s := StateIn(sl);
    replies := [];
    for i := 0 to |ops|
      invariant sl.Valid() && forall n :: n in sl.all ==> n in old(sl.all) || fresh(n)
      invariant StateIn(sl) == AfterAll(sl.two, s, ops[..i]) && |sl.contents| + |ops| - i <= LONG_MAX
      invariant replies == AnswerAll(sl.two, s, ops[..i])
    {
      AfterSize(sl.two, StateIn(sl), ops[i]);
      assert forall k :: 0 <= k < |sl.all| ==> sl.all[k] in old(sl.all) || fresh(sl.all[k]);
      var reply := Step(sl, ops[i]);
      assert ops[..i + 1][..i] == ops[..i];
      replies := replies + [reply];
    }
    assert ops[..|ops|] == ops;
  }

  lemma {:induction false} SetSize(two: bool, s: seq<Value>, v: Value)
    ensures |SetIn(two, s, v)| <= |s| + 1
  {
    if s != [] { SetSize(two, s[1..], v); }
  }

  lemma AfterSize(two: bool, s: State, op: Op)
    ensures |After(two, s, op).values| <= |s.values| + 1
  {
    match op
    case Put(v, _) => SetSize(two, s.values, v);
    case Remove(a, b) => IntervalSize(s.values, Lower(a, b), Upper(a, b));
    case _ =>
  }

  /** Two lists with the same values see the same operations, with heights picked for each of them. */
  method RunBoth(one: SkipList, other: SkipList, ops: seq<Op>, ops': seq<Op>)
    returns (replies: seq<Reply>, replies': seq<Reply>)
    requires one.Valid() && other.Valid() && one != other && (forall n :: n in one.all ==> n !in other.all)
    requires one.two == other.two && one.contents == other.contents && |one.contents| + |ops| <= LONG_MAX
    requires SameButHeights(ops, ops') && forall i :: 0 <= i < |ops| && ops[i].Put? ==> 1 <= ops[i].h <= MAX_LEVEL
    requires forall i :: 0 <= i < |ops'| && ops'[i].Put? ==> 1 <= ops'[i].h <= MAX_LEVEL
    modifies one, one.all, other, other.all
    ensures one.Valid() && other.Valid() && one.contents == other.contents
    ensures !one.two ==> replies == replies'
  {
    hide *;
    FittingIn(one);
    FittingIn(other);
    StateIs(one);
    StateIs(other);
    SameLength(ops, ops');
    HeightsHidden(one.two, StateIn(one), StateIn(other), ops, ops');
    replies := RunApart(one, ops, other);
    replies' := RunApart(other, ops', one);
    StateIs(one);
    StateIs(other);
  }

  /** A run on one list leaves another one alone. */
  method RunApart(sl: SkipList, ops: seq<Op>, ghost other: SkipList) returns (replies: seq<Reply>)
    requires sl.Valid() && other.Valid() && sl != other && (forall n :: n in sl.all ==> n !in other.all)
    requires |sl.contents| + |ops| <= LONG_MAX
    requires forall i :: 0 <= i < |ops| && ops[i].Put? ==> 1 <= ops[i].h <= MAX_LEVEL
    modifies sl, sl.all
    ensures sl.Valid() && other.Valid() && (forall n :: n in other.all ==> n !in sl.all)
    ensures StateIn(sl) == AfterAll(sl.two, old(StateIn(sl)), ops)
    ensures replies == AnswerAll(sl.two, old(StateIn(sl)), ops)
    ensures other.all == old(other.all) && StateIn(other) == old(StateIn(other))
    ensures other.contents == old(other.contents)
  {
    hide SkipList.Valid, AfterAll, AnswerAll;
    replies := Run(sl, ops);
    assert other.all == old(other.all);
    forall i | 0 <= i < |other.all|
      ensures unchanged(other.all[i])
    {
      assert other.all[i] in old(other.all);
    }
    forall n | n in other.all
      ensures n !in sl.all
    {
      assert n in old(other.all);
    }
  }

  lemma StateIs(sl: SkipList)
    ensures StateIn(sl).values == sl.contents && StateIn(sl).heights == sl.hs
  {
  }

  lemma SameLength(ops: seq<Op>, ops': seq<Op>)
    requires SameButHeights(ops, ops')
    ensures |ops| == |ops'|
  {
  }

  /** The second of two values that compare equal is set with the taller tower. */
  lemma {:induction false} TwoEqual(a: Value, b: Value)
    requires Compare(a, b) == 0 && Cmp(true, a, b) < 0
    ensures After(true, After(true, State([], [MAX_LEVEL]), Put(a, 1)), Put(b, 2)) == State([a, b], [MAX_LEVEL, 1, 2])
  {
    assert SetIn(true, [], a) == [a] && SetHeights(true, [], [MAX_LEVEL], a, 1) == [MAX_LEVEL, 1];
    assert SetIn(true, [a], b) == [a] + SetIn(true, [], b);
    assert SetPlace(true, [a], b) == 1;
  }

  lemma {:induction false} SecondListed(a: Value, b: Value)
    requires Compare(a, b) == 0 && Cmp(true, a, b) < 0
    ensures Listing([MAX_LEVEL, 1, 2], [a, b], a, a, 2) == [b] && Wanted([a, b], a, a) == [a, b]
  {
    var vs, hs: seq<nat> := [a, b], [MAX_LEVEL, 1, 2];
    assert EqualAt(vs, a, 1) && EqualAt(vs, a, 2);
    assert Tallest(hs, vs, a, 2);
    assert UpTo(vs, a) == 2;
    ListingUp(hs, vs, a, a, 2, 2);
    IntervalAt(vs, a, a, 0, 2);
  }

  lemma {:induction false} ThreeSteps(two: bool, s: State, x: Op, y: Op, z: Op)
    requires z.Range?
    ensures AfterAll(two, s, [x] + [y] + [z]) == After(two, After(two, s, x), y)
    ensures AnswerAll(two, s, [x] + [y] + [z]) ==
      [Answer(s, x)] + [Answer(After(two, s, x), y)] + [Answer(After(two, After(two, s, x), y), z)]
  {
    var t := After(two, After(two, s, x), y);
    assert After(two, t, z) == t;
    NoStep(two, s);
    hide *;
    assert [] + [x] == [x];
    OneStep(two, s, [], x);
    OneStep(two, s, [x], y);
    OneStep(two, s, [x] + [y], z);
    assert [] + [Answer(s, x)] == [Answer(s, x)];
  }

  lemma {:induction false} NoStep(two: bool, s: State)
    ensures AfterAll(two, s, []) == s && AnswerAll(two, s, []) == []
  {
  }

  lemma {:induction false} OneStep(two: bool, s: State, ops: seq<Op>, op: Op)
    ensures AfterAll(two, s, ops + [op]) == After(two, AfterAll(two, s, ops), op)
    ensures AnswerAll(two, s, ops + [op]) == AnswerAll(two, s, ops) + [Answer(AfterAll(two, s, ops), op)]
  {
    hide Answer, After;
    assert (ops + [op])[..|ops|] == ops;
  }

  /** With `compare2` the heights show: the search for the first of two values that compare equal meets the taller
      tower of the second one first, and the range misses the first. */
  method DuplicateMissed() returns (sl: SkipList, replies: seq<Reply>)
    ensures sl.Valid() && sl.two && var a, b := Value(5, 1, 0), Value(5, 2, 0);
      sl.contents == [a, b] && Wanted(sl.contents, a, a) == [a, b] && replies == [Done] + [Done] + [Listed([b])]
  {
    hide SkipList.Valid, AfterAll, AnswerAll, After, Listing, Wanted;
    var a, b := Value(5, 1, 0), Value(5, 2, 0);
    TwoEqual(a, b);
    SecondListed(a, b);
    ThreeSteps(true, State([], [MAX_LEVEL]), Put(a, 1), Put(b, 2), Range(a, a, 2));
    assert Value(5, 1, 0) == a && Compare(a, a) == 0;
    sl := new SkipList(true);
    replies := Run(sl, [Put(a, 1)] + [Put(b, 2)] + [Range(a, a, 2)]);
  }
}
