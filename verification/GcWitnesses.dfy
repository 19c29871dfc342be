/** Runs from a new interpreter: two that end with a reference to a freed object, and one after which the byte
    counter is wrong. */
module GcWitnesses {
  import opened GcGraph
  import opened GcMark
  import opened GcAccount
  import opened GcHeap
  import opened GcLooks
  import opened GcMutator
  import opened GcState
  import opened GcRuns
  import opened Slices

  lemma {:induction false} ClosedWithin(g: map<Obj, set<Obj>>, roots: set<Obj>, k: nat)
    requires forall o :: o in roots ==> o in g && g[o] <= roots
    ensures GcGraph.Within(g, roots, k) == roots
  {
    if k > 0 { ClosedWithin(g, roots, k - 1); }
  }

  /** When the roots refer to nothing but each other, they are all that is live. */
  lemma {:induction false} ClosedRoots(s: State)
    requires forall o :: o in s.Roots() ==> o in s.objs && o in s.looks && s.looks[o].Refs() <= s.Roots()
    ensures s.Live() == s.Roots()
  {
    hide State.Roots, Look.Refs;
    var g, roots := s.Graph(), s.Roots();
    forall o | o in s.objs
      ensures Reached(g, roots, o) <==> o in roots
    {
      if o in roots {
        assert o in GcGraph.Within(g, roots, 0);
      }
      if Reached(g, roots, o) {
        var k: nat :| o in GcGraph.Within(g, roots, k);
        ClosedWithin(g, roots, k);
      }
    }
  }

  /** Roots that are all on the stack. */
  lemma {:induction false} StackRoots(s: State)
    requires s.globals == [] && s.modules == [] && s.envs == [] && s.exception == Plain(0)
    ensures s.Roots() == AllTargets(s.pushed)
  {
  }

  lemma {:induction false} NothingKept(s: seq<Obj>)
    ensures Keep(s, {}) == []
  {
    if s != [] { NothingKept(s[..|s| - 1]); }
  }

  /** Nothing but the stack and the list of environments can hold a reference. */
  ghost predicate Bare(s: State) {
    s.globals == [] && s.modules == [] && s.exception == Plain(0)
  }

  /** The array `a` is on the list, at the bottom of a storage with these cells, and shows `len` of them. */
  ghost predicate Holds(s: State, a: Obj, pos: nat, len: nat, cells: seq<CrbValue>) {
    && a in s.objs && a in s.looks && s.looks[a].u.ArrayObject?
    && s.looks[a].pos == pos && s.looks[a].len == len && s.looks[a].cells == cells
  }

  lemma {:induction false} NewStart(inter: Interp)
    requires inter.globals == [] && inter.modules == [] && inter.envs == [] && inter.sp == 0
    requires inter.exception == Plain(0)
    requires inter.objs == [] && inter.sp <= |inter.stack|
    ensures var s := StateOf(inter); Bare(s) && s.envs == [] && s.pushed == [] && s.objs == []
  {
  }

  lemma {:induction false} RootKept(s: State, a: Obj)
    requires a in s.objs && Ref(a) in s.pushed
    ensures a in s.Live() && a in Keep(s.objs, s.Live())
  {
    var i :| 0 <= i < |s.pushed| && s.pushed[i] == Ref(a);
    assert a in Targets(s.pushed[i]);
    assert a in s.Roots();
    assert a in GcGraph.Within(s.Graph(), s.Roots(), 0);
    KeepIn(s.objs, s.Live(), a);
  }

  /** What a step that makes an object leaves of an array that is on the stack. */
  lemma {:induction false} StillHolds(s: State, s': State, a: Obj, pos: nat, len: nat, cells: seq<CrbValue>)
    requires Made(s, s') && Holds(s, a, pos, len, cells) && Ref(a) in s.pushed && Bare(s)
    ensures Holds(s', a, pos, len, cells) && a != s'.objs[0] && Bare(s')
    ensures s'.pushed == s.pushed + [Ref(s'.objs[0])] && s'.envs == s.envs
  {
    hide State.Live, Keep;
    RootKept(s, a);
    assert a in s'.objs[1..];
  }

  lemma {:induction false} FirstArray(s: State, s': State, size: nat)
    requires Next(NewArray(size), s, s') && Bare(s) && s.pushed == [] && s.objs == []
    ensures s'.objs != [] && s'.objs == [s'.objs[0]] && Holds(s', s'.objs[0], 0, size, Nulls(size)) && Bare(s')
    ensures s'.pushed == [Ref(s'.objs[0])] && s'.envs == s.envs
  {
    hide Nulls, State.Live;
  }

  lemma {:induction false} OneRef(a: Obj)
    ensures AllTargets([Ref(a)]) == {a}
  {
    PushTargets([], Ref(a));
    assert [] + [Ref(a)] == [Ref(a)];
  }

  // ---------------------------------------------------------------- a cell behind the elements

  /** Two null values, and behind them what is left of a third one. */
  ghost function LeftOver(b: Obj): seq<CrbValue> {
    [Plain(0), Plain(0), Ref(b)]
  }

  lemma {:induction false} SetHolds(s: State, s': State, k: nat, index: nat, j: nat, a: Obj, len: nat,
                                    cells: seq<CrbValue>)
    requires Next(SetElement(k, index, j), s, s') && k < |s.pushed| && s.pushed[k] == Ref(a) && j < |s.pushed|
    requires Bare(s)
    requires Holds(s, a, 0, len, cells) && index < len <= |cells|
    ensures Holds(s', a, 0, len, cells[index := s.pushed[j]]) && s'.pushed == s.pushed && Bare(s') && s'.envs == s.envs
  {
    assert s.Operand(k) == a;
    hide State.Operand;
  }

  lemma {:induction false} PopHolds(s: State, s': State, k: nat, index: nat, a: Obj, len: nat, cells: seq<CrbValue>)
    requires Next(PopElement(k, index), s, s') && k < |s.pushed| && s.pushed[k] == Ref(a) && Bare(s)
    requires Holds(s, a, 0, len, cells) && index < len <= |cells|
    ensures Holds(s', a, 0, len - 1, GapClosed(cells, index, len)) && Bare(s') && s'.envs == s.envs
    ensures s'.pushed == s.pushed + [cells[index]]
  {
    assert s.Operand(k) == a;
    hide State.Operand, GapClosed;
  }

  /** The last of three values is set; the first is taken out, which moves the others down and leaves a copy of the last
      one behind; and the one it moved is overwritten. */
  lemma {:induction false} StaleStore(s: State, s1: State, s2: State, s3: State, a: Obj, b: Obj)
    requires Holds(s, a, 0, 3, Nulls(3)) && s.pushed == [Ref(a), Ref(b)] && Bare(s)
    requires Next(SetElement(0, 2, 1), s, s1) && Next(PopElement(0, 0), s1, s2) && Next(SetElement(0, 1, 2), s2, s3)
    ensures Holds(s3, a, 0, 2, LeftOver(b)) && s3.pushed == [Ref(a), Ref(b), Plain(0)] && Bare(s3) && s3.envs == s.envs
  {
    assert |Nulls(3)| == 3 && Nulls(3)[2 := Ref(b)] == LeftOver(b);
    assert GapClosed(LeftOver(b), 0, 3) == [Plain(0), Ref(b), Ref(b)];
    assert [Plain(0), Ref(b), Ref(b)][1 := Plain(0)] == LeftOver(b);
    assert |LeftOver(b)| == 3 && LeftOver(b)[0] == Plain(0);
    hide *;
    SetHolds(s, s1, 0, 2, 1, a, 3, Nulls(3));
    PopHolds(s1, s2, 0, 0, a, 3, LeftOver(b));
    SetHolds(s2, s3, 0, 1, 2, a, 2, [Plain(0), Ref(b), Ref(b)]);
  }

  lemma {:induction false} StaleLive(s: State, a: Obj, b: Obj)
    requires Holds(s, a, 0, 2, LeftOver(b)) && s.pushed == [Ref(a)] && Bare(s) && s.envs == []
    ensures s.Live() == {a}
  {
    assert s.looks[a].Shows() == [Plain(0), Plain(0)];
    assert s.looks[a].Refs() == {};
    hide State.Live, State.Roots, Look.Refs, LeftOver, AllTargets;
    StackRoots(s);
    OneRef(a);
    ClosedRoots(s);
  }

  lemma {:induction false} CollectKeeps(s: State, s': State)
    requires Next(Collect, s, s')
    ensures s' == s.(objs := Keep(s.objs, s.Live()), looks := s'.looks)
    ensures forall o :: o in s'.objs ==> o in s.looks && o in s'.looks && s'.looks[o] == s.looks[o]
  {
    hide Keep, State.Live;
  }

  lemma {:induction false} StaleCollect(s: State, s': State, a: Obj, b: Obj)
    requires Holds(s, a, 0, 2, LeftOver(b)) && s.pushed == [Ref(a)] && Bare(s) && s.envs == [] && a != b
    requires Next(Collect, s, s')
    ensures Holds(s', a, 0, 2, LeftOver(b)) && s'.pushed == [Ref(a)] && Bare(s') && b !in s'.objs
  {
    hide Next, Keep, State.Live, LeftOver;
    StaleLive(s, a, b);
    CollectKeeps(s, s');
    KeepIn(s.objs, s.Live(), a);
    KeepIn(s.objs, s.Live(), b);
  }

  /** A listed array that shows a reference to an object that is not listed. */
  lemma ShowsGone(s: State, x: Obj, k: nat, b: Obj)
    requires x in s.objs && x in s.looks && s.looks[x].u.ArrayObject? && b !in s.objs
    requires k < |s.looks[x].Shows()| && s.looks[x].Shows()[k] == Ref(b)
    ensures !s.Sane()
  {
    assert b in Targets(s.looks[x].Shows()[k]);
    assert b in s.looks[x].Refs();
  }

  lemma {:induction false} StaleSlice(s: State, s': State, a: Obj, b: Obj)
    requires Holds(s, a, 0, 2, LeftOver(b)) && s.pushed == [Ref(a)] && Bare(s) && b !in s.objs
    requires Next(NewSlice(0, 0, 3), s, s')
    ensures s.Opens(0, 0, 3) && s'.objs != [] && s'.objs[0] in s'.looks
    ensures s'.pushed == [Ref(a), Ref(s'.objs[0])] && s'.looks[s'.objs[0]].Shows() == LeftOver(b)
    ensures b != s'.objs[0] ==> b !in s'.objs && !s'.Sane()
  {
    assert s.Operand(0) == a;
    hide State.Live, State.Operand, State.Sane;
    var x := s'.objs[0];
    assert s'.looks[x].Shows() == LeftOver(b);
    forall o | o in s'.objs[1..]
      ensures o in s.objs
    {
      KeepIn(s.objs, s.Live(), o);
    }
    hide Keep;
    if b != x {
      ShowsGone(s', x, 2, b);
    }
  }

  lemma {:induction false} InsertHolds(s: State, s': State, k: nat, index: nat, j: nat, a: Obj, len: nat,
                                       cells: seq<CrbValue>)
    requires Next(InsertElement(k, index, j), s, s') && k < |s.pushed| && s.pushed[k] == Ref(a) && j < |s.pushed|
    requires Holds(s, a, 0, len, cells) && index <= len < |cells|
    ensures Holds(s', a, 0, len + 1, Shifted(cells, 0, len, index, s.pushed[j]))
    ensures s'.pushed == s.pushed && s'.objs == s.objs
  {
    assert s.Operand(k) == a;
    hide State.Operand, Shifted;
  }

  lemma {:induction false} LeftOverShifted(a: Obj, b: Obj)
    ensures Shifted(LeftOver(b), 0, 2, 1, Ref(a)) == [Plain(0), Ref(a), Ref(b)]
  {
    assert Inserted([Plain(0), Plain(0)], Ref(b), 1, Ref(a)) == [Plain(0), Ref(a), Ref(b)];
    assert LeftOver(b)[0..2] == [Plain(0), Plain(0)] && LeftOver(b)[..0] == [] && LeftOver(b)[3..] == [];
  }

  lemma {:induction false} StaleInsert(s: State, s': State, a: Obj, b: Obj)
    requires Holds(s, a, 0, 2, LeftOver(b)) && s.pushed == [Ref(a)] && Bare(s) && b !in s.objs
    requires Next(InsertElement(0, 1, 0), s, s')
    ensures s'.objs == s.objs && s'.pushed == [Ref(a)] && a in s'.objs && a in s'.looks && !s'.Sane()
    ensures s'.looks[a].Shows() == [Plain(0), Ref(a), Ref(b)]
  {
    assert |LeftOver(b)| == 3;
    hide Next, State.Sane, Shifted, LeftOver;
    InsertHolds(s, s', 0, 1, 0, a, 2, LeftOver(b));
    LeftOverShifted(a, b);
    assert s'.looks[a].Shows() == [Plain(0), Ref(a), Ref(b)];
    ShowsGone(s', a, 2, b);
  }

  lemma OnTop(s: State, a: Obj)
    requires s.pushed == [Ref(a)]
    ensures Ref(a) in s.pushed
  {
    assert s.pushed[0] == Ref(a);
  }

  lemma StringMade(s: State, s': State, length: nat, isLiteral: bool)
    requires Next(NewString(length, isLiteral), s, s')
    ensures Made(s, s') && s'.objs != []
  {
    hide Trimmed;
  }

  lemma PopNext(s: State, s': State)
    requires Next(Pop, s, s') && s.pushed != []
    ensures s' == s.(pushed := s.pushed[..|s.pushed| - 1])
  {
  }

  /** A step that leaves the heap valid whatever it finds. */
  method Harmless(inter: Interp, op: Op)
    requires inter.Valid() && !op.NewSlice? && !op.InsertElement?
    modifies inter, inter.repr
    ensures inter.Valid() && fresh(inter.repr - old(inter.repr)) && Next(op, old(StateOf(inter)), StateOf(inter))
  {
    hide *;
    var _ := Step(inter, op);
  }

  /** An array of three values, and a string. */
  method StaleStart(size: Sizes) returns (inter: Interp, ghost a: Obj, ghost b: Obj)
    ensures fresh(inter) && inter.Valid() && fresh(inter.repr) && a != b && Bare(StateOf(inter))
    ensures StateOf(inter).envs == []
    ensures Holds(StateOf(inter), a, 0, 3, Nulls(3)) && StateOf(inter).pushed == [Ref(a), Ref(b)]
  {
    hide *;
    inter := new Interp(size);
    NewStart(inter);
    ghost var s := StateOf(inter);
    Harmless(inter, NewArray(3));
    ghost var s1 := StateOf(inter);
    FirstArray(s, s1, 3);
    a := s1.objs[0];
    Harmless(inter, NewString(0, true));
    ghost var s2 := StateOf(inter);
    StringMade(s1, s2, 0, true);
    OnTop(s1, a);
    StillHolds(s1, s2, a, 0, 3, Nulls(3));
    b := s2.objs[0];
  }

  /** The string is left behind in the array, and the stack keeps only the array. */
  method StaleEmptied(inter: Interp, ghost a: Obj, ghost b: Obj)
    requires inter.Valid() && Bare(StateOf(inter)) && StateOf(inter).envs == []
    requires Holds(StateOf(inter), a, 0, 3, Nulls(3)) && StateOf(inter).pushed == [Ref(a), Ref(b)]
    modifies inter, inter.repr
    ensures inter.Valid() && fresh(inter.repr - old(inter.repr)) && Bare(StateOf(inter)) && StateOf(inter).envs == []
    ensures Holds(StateOf(inter), a, 0, 2, LeftOver(b)) && StateOf(inter).pushed == [Ref(a)]
  {
    hide *;
    ghost var s := StateOf(inter);
    Harmless(inter, SetElement(0, 2, 1));
    ghost var s1 := StateOf(inter);
    Harmless(inter, PopElement(0, 0));
    ghost var s2 := StateOf(inter);
    Harmless(inter, SetElement(0, 1, 2));
    ghost var s3 := StateOf(inter);
    StaleStore(s, s1, s2, s3, a, b);
    Harmless(inter, Pop);
    ghost var s4 := StateOf(inter);
    PopNext(s3, s4);
    Harmless(inter, Pop);
    PopNext(s4, StateOf(inter));
    PoppedHolds(s3, StateOf(inter), a, 0, 2, LeftOver(b));
  }

  lemma PoppedHolds(s: State, s': State, a: Obj, pos: nat, len: nat, cells: seq<CrbValue>)
    requires s' == s.(pushed := s'.pushed) && Holds(s, a, pos, len, cells) && Bare(s)
    ensures Holds(s', a, pos, len, cells) && Bare(s')
  {
  }

  /** Eight steps make an array of two null values, with a reference behind them to a string that has been freed. */
  method StaleCell(size: Sizes) returns (inter: Interp, ghost a: Obj, ghost gone: Obj)
    ensures fresh(inter) && inter.Valid() && fresh(inter.repr) && Bare(StateOf(inter))
    ensures Holds(StateOf(inter), a, 0, 2, LeftOver(gone)) && StateOf(inter).pushed == [Ref(a)]
    ensures gone !in StateOf(inter).objs
  {
    hide *;
    inter, a, gone := StaleStart(size);
    StaleEmptied(inter, a, gone);
    ghost var s := StateOf(inter);
    Harmless(inter, Collect);
    StaleCollect(s, StateOf(inter), a, gone);
  }

  /** The slice expression `a[0:3]` then shows that reference. */
  method Stale(size: Sizes) returns (inter: Interp, shown: Obj, ghost gone: Obj)
    ensures inter.Framed() && !inter.Valid()
    ensures Ref(shown) in StateOf(inter).pushed && shown in inter.objs && shown in StateOf(inter).looks
    ensures StateOf(inter).looks[shown].Shows() == [Plain(0), Plain(0), Ref(gone)] && gone !in inter.objs
  {
    hide *;
    ghost var a;
    inter, a, gone := StaleCell(size);
    ghost var s := StateOf(inter);
    var o := Step(inter, NewSlice(0, 0, 3));
    StaleSlice(s, StateOf(inter), a, gone);
    StateParts(inter);
    shown := o;
    assert StateOf(inter).pushed[1] == Ref(shown);
    LeftOverIs(gone);
  }

  lemma LeftOverIs(b: Obj)
    ensures LeftOver(b) == [Plain(0), Plain(0), Ref(b)]
  {
  }

  /** So does `a.insert(1, a)`, which opens no slice. */
  method StaleByInsert(size: Sizes) returns (inter: Interp, ghost a: Obj, ghost gone: Obj)
    ensures inter.Framed() && !inter.Valid()
    ensures StateOf(inter).pushed == [Ref(a)] && a in inter.objs && a in StateOf(inter).looks
    ensures StateOf(inter).looks[a].Shows() == [Plain(0), Ref(a), Ref(gone)] && gone !in inter.objs
  {
    hide *;
    inter, a, gone := StaleCell(size);
    ghost var s := StateOf(inter);
    var _ := Step(inter, InsertElement(0, 1, 0));
    StaleInsert(s, StateOf(inter), a, gone);
    StateParts(inter);
  }

  // ---------------------------------------------------------------- the counter can drift

  lemma NullsLength(n: nat)
    ensures |Nulls(n)| == n
  {
  }

  lemma {:induction false} OnlyKept(w: Obj, live: set<Obj>)
    requires w in live
    ensures Keep([w], live) == [w]
  {
    assert [w][..0] == [];
  }

  lemma {:induction false} SecondHalf(s: State, s': State, w: Obj)
    requires Next(NewSlice(0, 1, 2), s, s') && s.objs == [w] && Holds(s, w, 0, 2, Nulls(2)) && s.pushed == [Ref(w)]
    requires Bare(s) && s.envs == []
    ensures !LooksBehind(NewSlice(0, 1, 2), s)
    ensures |s'.objs| == 2 && s'.objs == [s'.objs[0], w] && s'.objs[0] != w && Bare(s') && s'.envs == []
    ensures Holds(s', s'.objs[0], 1, 1, Nulls(2)) && Holds(s', w, 0, 2, Nulls(2))
    ensures s'.pushed == [Ref(w), Ref(s'.objs[0])]
  {
    hide State.Live, Keep, Nulls;
    NullsLength(2);
    assert s.Operand(0) == w;
    OnTop(s, w);
    RootKept(s, w);
    OnlyKept(w, s.Live());
    hide State.Operand;
    assert s'.objs[1..] == [w];
  }

  lemma EnterNext(s: State, s': State, k: nat)
    requires Next(EnterFunction(k), s, s') && k >= |s.pushed|
    ensures s' == s.(envs := [Env(null, [])] + s.envs)
  {
  }

  lemma HoldNext(s: State, s': State, k: nat, p: Obj)
    requires Next(HoldInNative(k), s, s') && k < |s.pushed| && s.pushed[k] == Ref(p) && s.envs != []
    ensures s' == s.(envs := [Env(s.envs[0].scopeChain, [p] + s.envs[0].refs)] + s.envs[1..])
  {
    assert s.Operand(k) == p;
    hide State.Operand;
  }

  /** The steps after which only a native function holds the slice. */
  lemma {:induction false} HeldOnly(s: State, s1: State, s2: State, s3: State, s4: State, p: Obj, w: Obj)
    requires Bare(s) && s.envs == [] && s.pushed == [Ref(w), Ref(p)]
    requires Next(EnterFunction(2), s, s1) && Next(HoldInNative(1), s1, s2) && Next(Pop, s2, s3) && Next(Pop, s3, s4)
    ensures s4 == s.(pushed := [], envs := [Env(null, [p])])
  {
    EnterNext(s, s1, 2);
    HoldNext(s1, s2, 1, p);
    PopNext(s2, s3);
    PopNext(s3, s4);
    assert s1.envs == [Env(null, [])] && [Env(null, [])][1..] == [] && [p] + [] == [p];
  }

  lemma {:induction false} HeldRoots(s: State, p: Obj)
    requires Bare(s) && s.pushed == [] && s.envs == [Env(null, [p])]
    ensures s.Roots() == {p}
  {
    EnvFrames([], Env(null, [p]));
    assert [Env(null, [p])] + [] == s.envs;
    RefFrames([], p);
    assert [p] + [] == [p];
    assert RefTargets([]) == {} && EnvTargets([]) == {};
  }

  lemma {:induction false} HeldLive(s: State, p: Obj)
    requires Bare(s) && s.pushed == [] && s.envs == [Env(null, [p])] && Holds(s, p, 1, 1, Nulls(2))
    ensures s.Live() == {p}
  {
    HeldRoots(s, p);
    assert s.looks[p].Shows() == [Plain(0)];
    assert s.looks[p].Refs() == {};
    ClosedRoots(s);
  }

  lemma {:induction false} HeldCollect(s: State, s': State, p: Obj, w: Obj)
    requires Bare(s) && s.pushed == [] && s.envs == [Env(null, [p])] && s.objs == [p, w] && p != w
    requires Holds(s, p, 1, 1, Nulls(2)) && Next(Collect, s, s')
    ensures s.Live() == {p} && s'.objs == [p] && Holds(s', p, 1, 1, Nulls(2))
    ensures Bare(s') && s'.pushed == [] && s'.envs == [Env(null, [p])]
  {
    hide Keep, State.Live, Nulls;
    HeldLive(s, p);
    FirstKept(p, w);
  }

  lemma FirstKept(p: Obj, w: Obj)
    requires p != w
    ensures Keep([p, w], {p}) == [p]
  {
    assert [p, w][..1] == [p] && [p][..0] == [];
    assert Keep([p], {p}) == [p];
  }

  lemma {:induction false} HeldHolds(s: State, s': State, p: Obj, w: Obj)
    requires s' == s.(pushed := [], envs := [Env(null, [p])]) && s.objs == [p, w] && Bare(s)
    requires Holds(s, p, 1, 1, Nulls(2)) && Holds(s, w, 0, 2, Nulls(2))
    ensures Holds(s', p, 1, 1, Nulls(2)) && Holds(s', w, 0, 2, Nulls(2))
    ensures Bare(s') && s'.objs == [p, w] && s'.pushed == [] && s'.envs == [Env(null, [p])]
  {
    hide Nulls;
  }

  lemma {:induction false} Dropped(s: State, s': State, p: Obj)
    requires Bare(s) && s.pushed == [] && s.envs == [Env(null, [p])] && s.objs == [p] && Holds(s, p, 1, 1, Nulls(2))
    requires Next(LeaveFunction, s, s')
    ensures s'.Live() == {} && s'.objs == [p] && Holds(s', p, 1, 1, Nulls(2))
  {
    hide Nulls, State.Live;
    assert s'.envs == [];
    assert s'.Roots() == {};
    ClosedRoots(s');
  }

  lemma {:induction false} NothingLeft(s: State, s': State)
    requires s.Live() == {} && Next(Collect, s, s')
    ensures s'.objs == []
  {
    hide State.Live, Keep;
    NothingKept(s.objs);
  }

  lemma LiveIs(inter: Interp)
    requires inter.Valid()
    ensures StateOf(inter).Live() == inter.Live()
  {
    hide Interp.Valid, Interp.Framed, Interp.Live, State.Live;
    FramedValid(inter);
    SameGraph(inter);
  }

  /** The places of the slices that the counter works with are those that can be read off the objects. */
  lemma {:induction false} ShapeLooks(inter: Interp)
    requires inter.Valid()
    ensures forall o :: o in inter.objs && StateOf(inter).looks[o].u.ArrayObject? ==>
      Of(inter.shapes, o).pos == StateOf(inter).looks[o].pos && Of(inter.shapes, o).storage != null
  {
    hide Linked, InRepr, Counted, SlicesApart, Interp.NoDangling, Spells, Interp.Valid;
    ValidParts(inter);
  }

  lemma {:induction false} NoneLost(inter: Interp, p: Obj, w: Obj)
    requires inter.Valid() && inter.objs == [p, w] && Holds(StateOf(inter), w, 0, 2, Nulls(2)) && inter.Live() == {p}
    ensures inter.StrandedBytes() == 0
  {
    hide Interp.Valid, Interp.Live, Nulls, StateOf;
    ShapeLooks(inter);
    NoneStranded(inter.objs, inter.shapes, {p}, 2);
    assert Of(inter.shapes, w).pos == 0;
  }

  lemma {:induction false} OneLost(inter: Interp, p: Obj)
    requires inter.Valid() && inter.objs == [p] && Holds(StateOf(inter), p, 1, 1, Nulls(2)) && inter.Live() == {}
    ensures inter.StrandedBytes() == inter.size.ofValue
  {
    hide Interp.Valid, Interp.Live, Nulls, StateOf;
    ShapeLooks(inter);
    assert Of(inter.shapes, p).pos == 1;
    assert Careless(inter.objs, inter.shapes, {}, 0);
    assert Stranded(inter.objs, inter.shapes, {}, 1) == 1;
  }

  lemma NoBytes(inter: Interp)
    requires inter.objs == []
    ensures inter.Drift() == inter.heapSize
  {
  }

  lemma CollectLoss(inter: Interp)
    ensures Loss(inter, Collect) == inter.StrandedBytes()
  {
    hide Interp.StrandedBytes;
  }

  /** An array of two values and a slice of its second one. */
  method LeakStart(size: Sizes) returns (inter: Interp, ghost p: Obj, ghost w: Obj)
    ensures fresh(inter) && inter.Valid() && fresh(inter.repr) && inter.size == size && inter.Drift() == 0
    ensures inter.objs == [p, w] && p != w && Bare(StateOf(inter)) && StateOf(inter).envs == []
    ensures Holds(StateOf(inter), p, 1, 1, Nulls(2)) && Holds(StateOf(inter), w, 0, 2, Nulls(2))
    ensures StateOf(inter).pushed == [Ref(w), Ref(p)]
  {
    hide *;
    inter := new Interp(size);
    NewStart(inter);
    BottomLoss(inter, NewArray(2));
    OtherOps(inter, NewArray(2));
    ghost var s, live := StateOf(inter), inter.Live();
    var _ := Step(inter, NewArray(2));
    SafeSplit(inter, live, 0, true);
    ghost var s1 := StateOf(inter);
    FirstArray(s, s1, 2);
    w := s1.objs[0];
    BottomLoss(inter, NewSlice(0, 1, 2));
    OtherOps(inter, NewSlice(0, 1, 2));
    live := inter.Live();
    var _ := Step(inter, NewSlice(0, 1, 2));
    SafeSplit(inter, live, 0, false);
    SecondHalf(s1, StateOf(inter), w);
    p := StateOf(inter).objs[0];
    StateParts(inter);
  }

  /** The slice is held by a native function, and nothing else is held. */
  method LeakHeld(inter: Interp, ghost p: Obj, ghost w: Obj)
    requires inter.Valid() && inter.Drift() == 0 && inter.objs == [p, w] && Bare(StateOf(inter))
    requires StateOf(inter).envs == []
    requires StateOf(inter).pushed == [Ref(w), Ref(p)]
    modifies inter, inter.repr
    ensures inter.Valid() && fresh(inter.repr - old(inter.repr)) && inter.Drift() == 0
    ensures StateOf(inter) == old(StateOf(inter)).(pushed := [], envs := [Env(null, [p])])
  {
    hide *;
    ghost var s := StateOf(inter);
    StillExact(inter, EnterFunction(2));
    ghost var s1 := StateOf(inter);
    StillExact(inter, HoldInNative(1));
    ghost var s2 := StateOf(inter);
    StillExact(inter, Pop);
    ghost var s3 := StateOf(inter);
    StillExact(inter, Pop);
    HeldOnly(s, s1, s2, s3, StateOf(inter), p, w);
  }

  /** A step that moves references between roots does not touch the counter. */
  method StillExact(inter: Interp, op: Op)
    requires inter.Valid() && (op.EnterFunction? || op.HoldInNative? || op.Pop? || op.LeaveFunction?)
    modifies inter, inter.repr
    ensures inter.Valid() && fresh(inter.repr - old(inter.repr)) && inter.Drift() == old(inter.Drift())
    ensures Next(op, old(StateOf(inter)), StateOf(inter))
  {
    hide *;
    RootOps(op);
    NoLoss(inter, op);
    ghost var live, drift, bottom := inter.Live(), inter.Drift(), inter.AtBottom();
    var _ := Step(inter, op);
    SafeSplit(inter, live, drift, bottom && FromBottom(op));
  }

  lemma RootOps(op: Op)
    requires op.EnterFunction? || op.HoldInNative? || op.Pop? || op.LeaveFunction?
    ensures RootOp(op)
  {
  }

  method CollectStep(inter: Interp, ghost loss: nat)
    requires inter.Valid() && loss == inter.StrandedBytes()
    modifies inter, inter.repr
    ensures inter.Valid() && fresh(inter.repr - old(inter.repr)) && inter.Drift() == old(inter.Drift()) + loss
    ensures Next(Collect, old(StateOf(inter)), StateOf(inter))
  {
    hide *;
    CollectLoss(inter);
    ghost var live, drift, bottom := inter.Live(), inter.Drift() + loss, inter.AtBottom();
    var _ := Step(inter, Collect);
    SafeSplit(inter, live, drift, bottom && FromBottom(Collect));
  }

  /** A native function holds the slice while a collection frees the array, and then drops it. All along the
      counter is exact. */
  method LeakDropped(size: Sizes) returns (inter: Interp, ghost p: Obj)
    ensures fresh(inter) && inter.Valid() && fresh(inter.repr) && inter.size == size
    ensures inter.objs == [p] && inter.Live() == {} && Holds(StateOf(inter), p, 1, 1, Nulls(2))
    ensures inter.Drift() == 0
  {
    hide *;
    ghost var w;
    inter, p, w := LeakStart(size);
    ghost var s := StateOf(inter);
    StateParts(inter);
    LeakHeld(inter, p, w);
    ghost var s1 := StateOf(inter);
    HeldHolds(s, s1, p, w);
    StateParts(inter);
    LiveIs(inter);
    HeldLive(s1, p);
    NoneLost(inter, p, w);
    CollectStep(inter, 0);
    ghost var s2 := StateOf(inter);
    HeldCollect(s1, s2, p, w);
    StillExact(inter, LeaveFunction);
    LiveIs(inter);
    Dropped(s2, StateOf(inter), p);
    StateParts(inter);
  }

  /** An array of two values and a slice of its second one; the array goes first. When the slice goes, nothing is
      left on the list, but the bytes of the value below the slice are left in the counter. */
  method Leak(size: Sizes) returns (inter: Interp)
    ensures fresh(inter) && inter.Valid() && inter.size == size && inter.objs == []
    ensures inter.Drift() == size.ofValue && inter.heapSize == size.ofValue
  {
    hide *;
    ghost var p;
    inter, p := LeakDropped(size);
    OneLost(inter, p);
    LiveIs(inter);
    ghost var s := StateOf(inter);
    StateParts(inter);
    CollectStep(inter, size.ofValue);
    NothingLeft(s, StateOf(inter));
    StateParts(inter);
    NoBytes(inter);
  }
}
