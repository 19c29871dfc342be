/** What a program can get at, step by step, and that this is what the collector keeps. */
module GcReach {
  import opened GcGraph
  import opened GcMark
  import opened GcHeap
  import opened GcLooks
  import opened GcState

  /** The object that a value carries. */
  ghost predicate Points(v: CrbValue, o: Obj) {
    v == Ref(o) || v == Closure(o) || v == FakeMethod(o)
  }

  /** Some variable, the stack, an environment or the current exception holds the object. */
  ghost predicate RootPoints(s: State, o: Obj) {
    || (exists i :: 0 <= i < |s.globals| && Points(s.globals[i], o))
    || (exists i, k :: 0 <= i < |s.modules| && 0 <= k < |s.modules[i]| && Points(s.modules[i][k], o))
    || (exists i :: 0 <= i < |s.envs| && s.envs[i].scopeChain == o)
    || (exists i, k :: 0 <= i < |s.envs| && 0 <= k < |s.envs[i].refs| && s.envs[i].refs[k] == o)
    || (exists i :: 0 <= i < |s.pushed| && Points(s.pushed[i], o))
    || Points(s.exception, o)
  }

  /** What an object holds, by what it is: the elements an array shows, the members of an assoc, the links of a
      scope. */
  ghost predicate LookPoints(l: Look, o: Obj) {
    match l.u
    case ArrayObject(_) => exists k :: 0 <= k < |l.Shows()| && Points(l.Shows()[k], o)
    case AssocObject(members) => exists name :: name in members && Points(members[name].value, o)
    case ScopeChain(frame, next) => frame == o || next == o
    case _ => false
  }

  lemma PointsTargets(v: CrbValue, o: Obj)
    ensures o in Targets(v) <==> Points(v, o)
  {
  }

  lemma SomePoints(values: seq<CrbValue>, o: Obj)
    ensures o in AllTargets(values) <==> exists i :: 0 <= i < |values| && Points(values[i], o)
  {
    forall i | 0 <= i < |values|
      ensures o in Targets(values[i]) <==> Points(values[i], o)
    {
      PointsTargets(values[i], o);
    }
  }

  lemma MembersPoint(members: map<int, Member>, o: Obj)
    ensures o in MemberTargets(members, members.Keys)
      <==> exists name :: name in members && Points(members[name].value, o)
  {
    forall name | name in members
      ensures o in Targets(members[name].value) <==> Points(members[name].value, o)
    {
      PointsTargets(members[name].value, o);
    }
    hide Targets, Points;
    assert forall name :: name in members <==> name in members.Keys;
  }

  lemma {:induction false} RefsPoint(l: Look, o: Obj)
    ensures o in l.Refs() <==> LookPoints(l, o)
  {
    match l.u
    case ArrayObject(_) =>
      SomePoints(l.Shows(), o);
    case AssocObject(members) =>
      MembersPoint(members, o);
      assert l.Refs() == MemberTargets(members, members.Keys);
      assert LookPoints(l, o) <==> exists name :: name in members && Points(members[name].value, o);
    case ScopeChain(_, _) =>
      assert l.Refs() == One(l.u.frame) + One(l.u.next);
    case StringObject(_, _) =>
      assert l.Refs() == {};
    case NativePointer(_) =>
      assert l.Refs() == {};
  }

  lemma {:induction false} ModulesPoint(modules: seq<seq<CrbValue>>, o: Obj)
    ensures o in ModuleTargets(modules) <==>
      exists i, k :: 0 <= i < |modules| && 0 <= k < |modules[i]| && Points(modules[i][k], o)
  {
    forall i | 0 <= i < |modules|
      ensures o in AllTargets(modules[i]) <==> exists k :: 0 <= k < |modules[i]| && Points(modules[i][k], o)
    {
      SomePoints(modules[i], o);
    }
    hide AllTargets, Points;
  }

  lemma {:induction false} EnvsPoint(envs: seq<Env>, o: Obj)
    ensures o in EnvTargets(envs) <==>
      || (exists i :: 0 <= i < |envs| && envs[i].scopeChain == o)
      || (exists i, k :: 0 <= i < |envs| && 0 <= k < |envs[i].refs| && envs[i].refs[k] == o)
  {
    forall i | 0 <= i < |envs|
      ensures o in One(envs[i].scopeChain) <==> envs[i].scopeChain == o
      ensures o in RefTargets(envs[i].refs) <==> exists k :: 0 <= k < |envs[i].refs| && envs[i].refs[k] == o
    {
      RefsHold(envs[i].refs, o);
    }
    hide One, RefTargets;
    forall i | 0 <= i < |envs|
      ensures o in One(envs[i].scopeChain) + RefTargets(envs[i].refs) ==> o in EnvTargets(envs)
    {
    }
    if o in EnvTargets(envs) {
      var i :| 0 <= i < |envs| && o in One(envs[i].scopeChain) + RefTargets(envs[i].refs);
      assert envs[i].scopeChain == o || exists k :: 0 <= k < |envs[i].refs| && envs[i].refs[k] == o;
    }
  }

  lemma RefsHold(refs: seq<Obj?>, o: Obj)
    ensures o in RefTargets(refs) <==> exists k :: 0 <= k < |refs| && refs[k] == o
  {
    forall k | 0 <= k < |refs|
      ensures o in One(refs[k]) <==> refs[k] == o
    {
    }
  }

  lemma {:induction false} RootsPoint(s: State, o: Obj)
    ensures o in s.Roots() <==> RootPoints(s, o)
  {
    SomePoints(s.globals, o);
    ModulesPoint(s.modules, o);
    EnvsPoint(s.envs, o);
    SomePoints(s.pushed, o);
    PointsTargets(s.exception, o);
    hide AllTargets, ModuleTargets, EnvTargets, Targets, Points;
  }

  /** From a root along what each object holds, over listed objects. */
  ghost predicate Path(s: State, p: seq<Obj>) {
    && p != [] && RootPoints(s, p[0]) && (forall o :: o in p ==> o in s.objs && o in s.looks)
    && forall i :: 0 < i < |p| ==> LookPoints(s.looks[p[i - 1]], p[i])
  }

  /** Every path ends at an object that a collection keeps, */
  lemma {:induction false} PathKept(s: State, p: seq<Obj>)
    requires Path(s, p)
    ensures p[|p| - 1] in s.Live() && p[|p| - 1] in Keep(s.objs, s.Live())
  {
    PathWithin(s, p, |p| - 1);
    assert p[|p| - 1] in p;
    KeepIn(s.objs, s.Live(), p[|p| - 1]);
  }

  lemma {:induction false} PathWithin(s: State, p: seq<Obj>, i: nat)
    requires Path(s, p) && i < |p|
    ensures p[i] in GcGraph.Within(s.Graph(), s.Roots(), i)
  {
    hide State.Roots, Look.Refs, RootPoints, LookPoints;
    if i == 0 {
      RootsPoint(s, p[0]);
    } else {
      PathWithin(s, p, i - 1);
      RefsPoint(s.looks[p[i - 1]], p[i]);
      assert p[i - 1] in p && p[i - 1] in s.Graph();
    }
  }

  /** and to every object it keeps there is one: neither less nor more stays than a program can get at. */
  lemma {:induction false} KeptPath(s: State, o: Obj) returns (p: seq<Obj>)
    requires s.Sane() && (forall x :: x in s.objs ==> x in s.looks) && s.Roots() <= set x | x in s.objs
    requires o in Keep(s.objs, s.Live())
    ensures Path(s, p) && p[|p| - 1] == o
  {
    KeepIn(s.objs, s.Live(), o);
    var k: nat :| o in GcGraph.Within(s.Graph(), s.Roots(), k);
    p := WithinPath(s, o, k);
  }

  lemma {:induction false} WithinPath(s: State, o: Obj, k: nat) returns (p: seq<Obj>)
    requires s.Sane() && (forall x :: x in s.objs ==> x in s.looks) && s.Roots() <= set x | x in s.objs
    requires o in GcGraph.Within(s.Graph(), s.Roots(), k)
    ensures Path(s, p) && p[|p| - 1] == o
  {
    hide State.Roots, Look.Refs, RootPoints, LookPoints;
    if k == 0 {
      RootsPoint(s, o);
      p := [o];
    } else if o in GcGraph.Within(s.Graph(), s.Roots(), k - 1) {
      p := WithinPath(s, o, k - 1);
    } else {
      var z :| z in GcGraph.Within(s.Graph(), s.Roots(), k - 1) && z in s.Graph() && o in s.Graph()[z];
      var q := WithinPath(s, z, k - 1);
      RefsPoint(s.looks[z], o);
      assert z in q;
      p := q + [o];
    }
  }

  /** The state of a valid interpreter is one of those. */
  lemma {:induction false} ValidReach(inter: Interp)
    requires inter.Valid()
    ensures var s := StateOf(inter);
      s.Sane() && (forall x :: x in s.objs ==> x in s.looks) && s.Roots() <= set x | x in s.objs
  {
    hide Intact, SlicesApart, Closed, State.Sane, LookOf, AllTargets, ModuleTargets, EnvTargets, Targets;
    assert inter.Framed();
    ValidSane(inter);
    SameGraph(inter);
  }
}
