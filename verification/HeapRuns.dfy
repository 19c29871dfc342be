/** A heap used through any sequence of calls is a priority queue. */
module HeapRuns {
  import opened Values
  import opened Slices
  import opened Sorting
  import opened BinaryHeap

  datatype Op = Push(value: Value) | Pop | Top
  datatype Answer = Pushed | Popped(value: Value, empty: bool) | Seen(value: Value)

  /** What a priority queue holding `bag` may answer, and what it holds afterwards: a pop takes
      any value that no other is below. */
  ghost predicate Allowed(bag: multiset<Value>, op: Op, a: Answer, bag': multiset<Value>) {
    match op
    case Push(v) => a == Pushed && bag' == bag + multiset{v}
    case Pop =>
      if bag == multiset{} then a == Popped(EMPTY_VALUE, true) && bag' == bag
      else a.Popped? && !a.empty && Least(a.value, bag) && bag' == bag - multiset{a.value}
    case Top =>
      && bag' == bag && a.Seen?
      && (if bag == multiset{} then a.value == EMPTY_VALUE else Least(a.value, bag))
  }

  /** `bags` are the contents before, between and after the calls. */
  ghost predicate History(ops: seq<Op>, answers: seq<Answer>, bags: seq<multiset<Value>>) {
    && |answers| == |ops| && |bags| == |ops| + 1
    && forall i {:trigger ops[i]} :: 0 <= i < |ops| ==> Allowed(bags[i], ops[i], answers[i], bags[i + 1])
  }

  lemma HistorySnoc(ops: seq<Op>, answers: seq<Answer>, bags: seq<multiset<Value>>, op: Op, a: Answer,
                    bag: multiset<Value>)
    requires History(ops, answers, bags) && Allowed(bags[|ops|], op, a, bag)
    ensures History(ops + [op], answers + [a], bags + [bag])
  {
  }

  method Step(h: Heap, op: Op) returns (a: Answer)
    requires h.Valid() && |h.Bag()| < LONG_MAX
    modifies h.Repr()
    ensures h.Valid() && fresh(h.Repr() - old(h.Repr()))
    ensures Allowed(old(h.Bag()), op, a, h.Bag())
    ensures |h.Bag()| <= old(|h.Bag()|) + 1
  {
    hide Heap.Valid, Heap.Repr, Heap.HasRoom, Heap.Bag, HeapOrder, HeapFrom, Least, Slice.View, Slice.Valid;
    h.Opened();
    match op
    case Push(v) =>
      h.Push(v);
      a := Pushed;
    case Pop =>
      var v, empty := h.Pop(false);
      a := Popped(v, empty);
    case Top =>
      var v := h.Top();
      a := Seen(v);
  }

  method Run(h: Heap, ops: seq<Op>) returns (answers: seq<Answer>, ghost bags: seq<multiset<Value>>)
    requires h.Valid() && |h.Bag()| + |ops| <= LONG_MAX
    modifies h.Repr()
    ensures h.Valid() && fresh(h.Repr() - old(h.Repr()))
    ensures History(ops, answers, bags) && bags[0] == old(h.Bag()) && bags[|ops|] == h.Bag()
  {
    hide *;
    answers, bags := [], [h.Bag()];
    HistoryNil(h.Bag());
    for i := 0 to |ops|
      invariant h.Valid() && fresh(h.Repr() - old(h.Repr()))
      invariant |answers| == i && |bags| == i + 1 && History(ops[..i], answers, bags)
      invariant bags[0] == old(h.Bag()) && bags[i] == h.Bag() && |h.Bag()| + |ops| - i <= LONG_MAX
    {
      var a := Step(h, ops[i]);
      h.Opened();
      HistorySnoc(ops[..i], answers, bags, ops[i], a, h.Bag());
      assert ops[..i + 1] == ops[..i] + [ops[i]];
      answers, bags := answers + [a], bags + [h.Bag()];
    }
    assert ops[..|ops|] == ops;
  }

  lemma HistoryNil(bag: multiset<Value>)
    ensures History([], [], [bag])
  {
  }

  ghost function TakenBy(a: Answer): seq<Value> {
    if a.Popped? && !a.empty then [a.value] else []
  }

  /** The values that were popped, in order. */
  ghost function Taken(answers: seq<Answer>): seq<Value> {
    if answers == [] then [] else TakenBy(answers[0]) + Taken(answers[1..])
  }

  ghost function GivenBy(op: Op): seq<Value> {
    if op.Push? then [op.value] else []
  }

  /** The values that were pushed, in order. */
  ghost function Given(ops: seq<Op>): seq<Value> {
    if ops == [] then [] else GivenBy(ops[0]) + Given(ops[1..])
  }

  lemma HistoryTail(ops: seq<Op>, answers: seq<Answer>, bags: seq<multiset<Value>>)
    requires History(ops, answers, bags) && ops != []
    ensures History(ops[1..], answers[1..], bags[1..]) && Allowed(bags[0], ops[0], answers[0], bags[1])
  {
    forall i {:trigger ops[1..][i]} | 0 <= i < |ops[1..]|
      ensures Allowed(bags[1..][i], ops[1..][i], answers[1..][i], bags[1..][i + 1])
    {
      assert ops[i + 1] == ops[1..][i];
    }
    assert ops[0] == ops[0];
  }

  lemma StepConserves(bag: multiset<Value>, op: Op, a: Answer, bag': multiset<Value>)
    requires Allowed(bag, op, a, bag')
    ensures bag + multiset(GivenBy(op)) == bag' + multiset(TakenBy(a))
  {
  }

  /** What goes in comes out or is still there: nothing is lost, doubled or invented. */
  lemma {:induction false} Conserved(ops: seq<Op>, answers: seq<Answer>, bags: seq<multiset<Value>>)
    requires History(ops, answers, bags)
    ensures bags[0] + multiset(Given(ops)) == bags[|ops|] + multiset(Taken(answers))
  {
    if ops != [] {
      HistoryTail(ops, answers, bags);
      hide History, Allowed, GivenBy, TakenBy;
      StepConserves(bags[0], ops[0], answers[0], bags[1]);
      Conserved(ops[1..], answers[1..], bags[1..]);
      Sums(bags[0], multiset(GivenBy(ops[0])), multiset(Given(ops[1..])), bags[1], multiset(TakenBy(answers[0])),
        multiset(Taken(answers[1..])), bags[|ops|]);
    }
  }

  lemma Sums<T>(a: multiset<T>, g: multiset<T>, gs: multiset<T>, b: multiset<T>, t: multiset<T>, ts: multiset<T>,
                z: multiset<T>)
    requires a + g == b + t && b + gs == z + ts
    ensures a + (g + gs) == z + (t + ts)
  {
    assert a + (g + gs) == a + g + gs && b + t + gs == b + gs + t && z + ts + t == z + (t + ts);
  }

  lemma DrainStep(v: Value, rest: seq<Value>, bag: multiset<Value>, bag': multiset<Value>)
    requires Least(v, bag) && bag' == bag - multiset{v} && multiset(rest) == bag' && Ascending(rest)
    ensures Ascending([v] + rest) && multiset([v] + rest) == bag
  {
    forall y | y in rest
      ensures v.key <= y.key
    {
      assert y in multiset(rest) && y in bag;
    }
    AscendingCons(v, rest);
  }

  /** Popping a heap empty lists all it held in ascending order. */
  lemma {:induction false} DrainSorts(ops: seq<Op>, answers: seq<Answer>, bags: seq<multiset<Value>>)
    requires History(ops, answers, bags) && (forall op :: op in ops ==> op == Pop) && |ops| >= |bags[0]|
    ensures bags[|ops|] == multiset{} && multiset(Taken(answers)) == bags[0] && Ascending(Taken(answers))
  {
    if ops == [] {
      assert bags[0] == multiset{};
    } else {
      assert ops[0] in ops && forall op :: op in ops[1..] ==> op in ops;
      HistoryTail(ops, answers, bags);
      PopShrinks(bags[0], answers[0], bags[1]);
      hide History, Allowed, Taken, Ascending, Least;
      DrainSorts(ops[1..], answers[1..], bags[1..]);
      TakenCons(answers);
      assert bags[1..][|ops[1..]|] == bags[|ops|];
      if bags[0] != multiset{} {
        DrainStep(answers[0].value, Taken(answers[1..]), bags[0], bags[1]);
      } else {
        assert Taken(answers) == Taken(answers[1..]);
      }
    }
  }

  lemma {:induction false} TakenCons(answers: seq<Answer>)
    requires answers != []
    ensures Taken(answers) == TakenBy(answers[0]) + Taken(answers[1..])
  {
  }

  lemma PopShrinks(bag: multiset<Value>, a: Answer, bag': multiset<Value>)
    requires Allowed(bag, Pop, a, bag')
    ensures bag == multiset{} ==> bag' == multiset{} && TakenBy(a) == []
    ensures bag != multiset{} ==>
      && a.Popped? && TakenBy(a) == [a.value] && Least(a.value, bag)
      && bag' == bag - multiset{a.value} && |bag'| == |bag| - 1
  {
    if bag != multiset{} {
      assert bag == bag' + multiset{a.value};
    }
  }
}
