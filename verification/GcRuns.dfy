/** Whole runs of a program that keeps everything it uses on the value stack. */
module GcRuns {
  import opened GcGraph
  import opened GcMark
  import opened GcAccount
  import opened GcHeap
  import opened GcLooks
  import opened GcMutator
  import opened GcState
  import opened Slices

  // ---------------------------------------------------------------- roots

  /** The objects that a change of roots may add are on the list. */
  lemma {:induction false} SlotLive(inter: Interp, k: nat)
    requires inter.Valid() && k < inter.sp
    ensures k < |inter.stack| && Targets(inter.stack[k]) <= inter.Live()
  {
    hide Intact, Closed, SlicesApart, Targets;
    ValidParts(inter);
    var s := inter.Pushed();
    assert s[k] == inter.stack[k];
    forall x | x in Targets(s[k])
      ensures x in inter.Live()
    {
      assert x in AllTargets(s) && x in inter.Roots();
      assert x in Within(inter.Graph(), inter.Roots(), 0);
      assert x in inter.Graph().Keys;
    }
  }

  lemma ListedLive(inter: Interp, x: set<Obj>)
    requires x <= inter.Live()
    ensures x <= set o | o in inter.objs
  {
  }

  lemma {:induction false} PushTargets(s: seq<CrbValue>, v: CrbValue)
    ensures AllTargets(s + [v]) == AllTargets(s) + Targets(v)
  {
    var t := s + [v];
    assert t[..|s|] == s && t[..|s| + 1] == t && t[|s|] == v;
    OneMore(t, |s|);
  }

  /** `CRB_push_value` */
  method PushValue(inter: Interp, v: CrbValue, ghost live: set<Obj>, ghost drift: int, ghost bottom: bool,
                   ghost looks: map<Obj, Look>)
    requires Safe(inter, live, drift, bottom)
    requires inter.Framed() && Targets(v) <= set o | o in inter.objs
    modifies inter`stack, inter`sp
    ensures Safe(inter, live, drift, bottom)
    ensures inter.Framed() && (inter.Valid() <==> old(inter.Valid())) && inter.sp == old(inter.sp) + 1
    ensures inter.Pushed() == old(inter.Pushed()) + [v]
    ensures StateWith(inter, looks) == old(StateWith(inter, looks)).(pushed := old(inter.Pushed()) + [v])
  {
    hide Intact, Closed, SlicesApart, Safe, Interp.Graph, AllTargets, ModuleTargets, EnvTargets, Targets;
    PushTargets(inter.Pushed(), v);
    if inter.sp == |inter.stack| {
      inter.stack := inter.stack + [v];
    } else {
      inter.stack := inter.stack[inter.sp := v];
    }
    inter.sp := inter.sp + 1;
    assert inter.Pushed() == old(inter.Pushed()) + [v];
  }

  lemma {:induction false} PopTargets(s: seq<CrbValue>)
    requires s != []
    ensures AllTargets(s[..|s| - 1]) <= AllTargets(s)
  {
  }

  method PopValue(inter: Interp, ghost live: set<Obj>, ghost drift: int, ghost bottom: bool,
                   ghost looks: map<Obj, Look>)
    requires Safe(inter, live, drift, bottom)
    requires inter.Valid() && inter.sp > 0
    modifies inter`sp
    ensures Safe(inter, live, drift, bottom)
    ensures inter.Valid() && inter.sp == old(inter.sp) - 1 && |old(inter.Pushed())| == old(inter.sp)
    ensures StateWith(inter, looks) == old(StateWith(inter, looks)).(pushed := old(inter.Pushed())[..inter.sp])
  {
    hide Intact, Closed, SlicesApart, Safe, Interp.Graph, AllTargets, ModuleTargets, EnvTargets, Targets;
    PopTargets(inter.Pushed());
    inter.sp := inter.sp - 1;
    assert inter.Pushed() == old(inter.Pushed())[..inter.sp];
  }

  method AddGlobal(inter: Interp, v: CrbValue, ghost live: set<Obj>, ghost drift: int, ghost bottom: bool,
                   ghost looks: map<Obj, Look>)
    requires Safe(inter, live, drift, bottom)
    requires inter.Valid() && Targets(v) <= set o | o in inter.objs
    modifies inter`globals
    ensures Safe(inter, live, drift, bottom)
    ensures inter.Valid() && inter.globals == old(inter.globals) + [v]
    ensures StateWith(inter, looks) == old(StateWith(inter, looks)).(globals := old(inter.globals) + [v])
  {
    hide Intact, Closed, SlicesApart, Safe, Interp.Graph, AllTargets, ModuleTargets, EnvTargets, Targets;
    PushTargets(inter.globals, v);
    inter.globals := inter.globals + [v];
  }

  lemma {:induction false} ModuleGrown(modules: seq<seq<CrbValue>>, i: nat, v: CrbValue)
    requires i < |modules|
    ensures ModuleTargets(modules[i := modules[i] + [v]]) <= ModuleTargets(modules) + Targets(v)
  {
    var now := modules[i := modules[i] + [v]];
    PushTargets(modules[i], v);
    forall x | x in ModuleTargets(now)
      ensures x in ModuleTargets(modules) + Targets(v)
    {
      var j :| 0 <= j < |now| && x in AllTargets(now[j]);
      hide AllTargets;
      assert j != i ==> now[j] == modules[j];
    }
  }

  method AddToModule(inter: Interp, i: nat, v: CrbValue, ghost live: set<Obj>, ghost drift: int, ghost bottom: bool,
                     ghost looks: map<Obj, Look>)
    requires Safe(inter, live, drift, bottom)
    requires inter.Valid() && i < |inter.modules| && Targets(v) <= set o | o in inter.objs
    modifies inter`modules
    ensures Safe(inter, live, drift, bottom)
    ensures inter.Valid() && inter.modules == old(inter.modules)[i := old(inter.modules)[i] + [v]]
    ensures StateWith(inter, looks) == old(StateWith(inter, looks)).(modules := inter.modules)
  {
    hide Intact, Closed, SlicesApart, Safe, Interp.Graph, AllTargets, ModuleTargets, EnvTargets, Targets;
    ModuleGrown(inter.modules, i, v);
    inter.modules := inter.modules[i := inter.modules[i] + [v]];
  }

  method SetException(inter: Interp, v: CrbValue, ghost live: set<Obj>, ghost drift: int, ghost bottom: bool,
                   ghost looks: map<Obj, Look>)
    requires Safe(inter, live, drift, bottom)
    requires inter.Valid() && Targets(v) <= set o | o in inter.objs
    modifies inter`exception
    ensures Safe(inter, live, drift, bottom)
    ensures inter.Valid() && inter.exception == v
    ensures StateWith(inter, looks) == old(StateWith(inter, looks)).(exception := v)
  {
    hide Intact, Closed, SlicesApart, Safe, Interp.Graph, AllTargets, ModuleTargets, EnvTargets, Targets;
    inter.exception := v;
  }

  lemma {:induction false} EnvFrames(envs: seq<Env>, e: Env)
    ensures EnvTargets([e] + envs) == One(e.scopeChain) + RefTargets(e.refs) + EnvTargets(envs)
    ensures envs != [] ==> EnvTargets(envs[1..]) <= EnvTargets(envs)
  {
    var all := [e] + envs;
    assert all[0] == e;
    assert forall i :: 0 <= i < |envs| ==> all[i + 1] == envs[i];
    if envs != [] {
      assert forall i :: 0 <= i < |envs[1..]| ==> envs[1..][i] == envs[i + 1];
    }
  }

  lemma NoRefs()
    ensures RefTargets([]) == {}
  {
  }

  method EnterEnv(inter: Interp, scope: Obj?, ghost live: set<Obj>, ghost drift: int, ghost bottom: bool,
                   ghost looks: map<Obj, Look>)
    requires Safe(inter, live, drift, bottom)
    requires inter.Valid() && One(scope) <= set o | o in inter.objs
    modifies inter`envs
    ensures Safe(inter, live, drift, bottom)
    ensures inter.Valid() && inter.envs == [Env(scope, [])] + old(inter.envs)
    ensures StateWith(inter, looks) == old(StateWith(inter, looks)).(envs := inter.envs)
  {
    hide Intact, Closed, SlicesApart, Safe, Interp.Graph, AllTargets, ModuleTargets, EnvTargets, Targets, RefTargets;
    EnvFrames(inter.envs, Env(scope, []));
    NoRefs();
    inter.envs := [Env(scope, [])] + inter.envs;
  }

  method LeaveEnv(inter: Interp, ghost live: set<Obj>, ghost drift: int, ghost bottom: bool,
                   ghost looks: map<Obj, Look>)
    requires Safe(inter, live, drift, bottom)
    requires inter.Valid() && inter.envs != []
    modifies inter`envs
    ensures Safe(inter, live, drift, bottom)
    ensures inter.Valid() && inter.envs == old(inter.envs)[1..]
    ensures StateWith(inter, looks) == old(StateWith(inter, looks)).(envs := inter.envs)
  {
    hide Intact, Closed, SlicesApart, Safe, Interp.Graph, AllTargets, ModuleTargets, EnvTargets, Targets, RefTargets;
    EnvFrames(inter.envs, Env(null, []));
    inter.envs := inter.envs[1..];
  }

  lemma {:induction false} RefFrames(refs: seq<Obj?>, o: Obj?)
    ensures RefTargets([o] + refs) == One(o) + RefTargets(refs)
  {
    var all := [o] + refs;
    assert all[0] == o;
    assert forall i :: 0 <= i < |refs| ==> all[i + 1] == refs[i];
  }

  /** `add_ref_in_native_method` */
  method AddRef(inter: Interp, o: Obj?, ghost live: set<Obj>, ghost drift: int, ghost bottom: bool,
                   ghost looks: map<Obj, Look>)
    requires Safe(inter, live, drift, bottom)
    requires inter.Valid() && inter.envs != [] && One(o) <= set p | p in inter.objs
    modifies inter`envs
    ensures Safe(inter, live, drift, bottom)
    ensures inter.Valid() && StateWith(inter, looks) == old(StateWith(inter, looks)).(envs := inter.envs)
    ensures inter.envs == [Env(old(inter.envs)[0].scopeChain, [o] + old(inter.envs)[0].refs)] + old(inter.envs)[1..]
  {
    hide Intact, Closed, SlicesApart, Safe, Interp.Graph, AllTargets, ModuleTargets, EnvTargets, Targets, RefTargets;
    var e := inter.envs[0];
    EnvFrames(inter.envs[1..], Env(e.scopeChain, [o] + e.refs));
    EnvFrames(inter.envs[1..], e);
    assert [e] + inter.envs[1..] == inter.envs;
    RefFrames(e.refs, o);
    inter.envs := [Env(e.scopeChain, [o] + e.refs)] + inter.envs[1..];
  }

  /** A reference goes on top of the stack. */
  method PushLooked(inter: Interp, v: CrbValue, ghost live: set<Obj>, ghost drift: int, ghost bottom: bool)
    requires Safe(inter, live, drift, bottom)
    requires inter.Framed() && Targets(v) <= set o | o in inter.objs
    modifies inter`stack, inter`sp
    ensures inter.Framed() && (inter.Valid() <==> old(inter.Valid())) && Safe(inter, live, drift, bottom)
    ensures StateOf(inter) == old(StateOf(inter)).(pushed := old(StateOf(inter)).pushed + [v])
  {
    hide Interp.Valid, Interp.Framed, Safe, Targets;
    ghost var looks := LooksOf(inter.objs);
    PushValue(inter, v, live, drift, bottom, looks);
    forall o | o in inter.objs
      ensures LookOf(o) == looks[o]
    {
    }
    assert LooksOf(inter.objs) == looks;
  }

  // ---------------------------------------------------------------- steps

  lemma {:induction false} StepFrame(inter: Interp)
    requires inter.Valid()
    ensures (set o | o in inter.objs) <= inter.repr && Storages(inter.objs, inter.shapes) <= inter.repr
    ensures inter !in inter.repr
  {
    hide Linked, Closed, Spells, Counted, Recorded, SlicesApart, Storages, Interp.NoDangling;
  }

  lemma SafeNow(inter: Interp)
    ensures Safe(inter, inter.Live(), inter.Drift(), inter.AtBottom())
  {
  }

  lemma RefTarget(o: Obj)
    ensures Targets(Ref(o)) == {o}
  {
  }

  lemma Listed(inter: Interp, o: Obj)
    requires o in inter.objs
    ensures {o} <= set p | p in inter.objs
  {
  }

  /** The operands of a step, read off the stack. */
  lemma OperandIs(inter: Interp, k: nat)
    requires inter.sp <= |inter.stack|
    ensures |StateOf(inter).pushed| == inter.sp
    ensures k < inter.sp ==> StateOf(inter).Slot(k) == inter.stack[k]
    ensures k >= inter.sp ==> StateOf(inter).Slot(k) == Plain(0)
    ensures StateOf(inter).Operand(k) == if StateOf(inter).Slot(k).Ref? then StateOf(inter).Slot(k).target else null
  {
    hide LooksOf;
  }

  lemma StackFits(inter: Interp)
    requires inter.Valid()
    ensures inter.sp <= |inter.stack|
  {
    hide Intact, Interp.NoDangling;
  }

  lemma {:induction false} OperandLive(inter: Interp, k: nat)
    requires inter.Valid()
    ensures var o := StateOf(inter).Operand(k); o != null ==> o in inter.Live() && o in inter.objs
  {
    hide *;
    StackFits(inter);
    OperandIs(inter, k);
    var o := StateOf(inter).Operand(k);
    if o != null {
      SlotLive(inter, k);
      RefTarget(o);
      LiveListed(inter, o);
    }
  }

  /** The object in a slot of the stack, if there is one. */
  method ObjectAt(inter: Interp, k: nat) returns (o: Obj?)
    requires inter.Valid()
    ensures o != null ==> o in inter.Live() && o in inter.objs
    ensures o == StateOf(inter).Operand(k) && StateOf(inter) == old(StateOf(inter))
  {
    hide *;
    StackFits(inter);
    OperandIs(inter, k);
    OperandLive(inter, k);
    o := null;
    if k < inter.sp && inter.stack[k].Ref? {
      o := inter.stack[k].target;
    }
  }

  /** The value in a slot that there is. */
  method ValueAt(inter: Interp, k: nat) returns (v: CrbValue)
    requires inter.Valid() && k < inter.sp
    ensures Targets(v) <= inter.Live() && Targets(v) <= (set o | o in inter.objs)
    ensures k < |StateOf(inter).pushed| && v == StateOf(inter).pushed[k] && StateOf(inter) == old(StateOf(inter))
  {
    hide Interp.Valid, Interp.Live, Targets, LooksOf;
    StackFits(inter);
    SlotLive(inter, k);
    v := inter.stack[k];
    ListedLive(inter, Targets(v));
  }

  /** What the program sees of an object, and what the object holds. */
  lemma LookIs(inter: Interp, o: Obj)
    requires o in inter.objs
    ensures o in StateOf(inter).looks && StateOf(inter).looks[o] == LookOf(o) && LookOf(o).u == o.u
    ensures o.u.ArrayObject? ==>
      && LookOf(o).owner == o.u.slice.data && LookOf(o).pos == o.u.slice.pos && LookOf(o).len == o.u.slice.len
      && LookOf(o).cells == o.u.slice.data.data[..]
    ensures !o.u.ArrayObject? ==> LookOf(o) == Look(o.u, null, 0, 0, [])
    ensures StateOf(inter).IsArray(o) <==> o.u.ArrayObject?
  {
  }

  /** The bytes that the collection inside a step strands. */
  ghost function Loss(inter: Interp, op: Op): nat
    reads inter, (set o | o in inter.objs)`u, set o, x | o in inter.objs && x in Parts(o.u) :: x
  {
    var s := StateOf(inter);
    match op
    case NewString(_, _) => inter.CheckLoss()
    case NewArray(_) => inter.CheckLoss()
    case NewAssoc => inter.CheckLoss()
    case NewScope => inter.CheckLoss()
    case NewNative(_) => inter.CheckLoss()
    case NewSlice(k, begin, end) => if s.Opens(k, begin, end) then inter.CheckLoss() else 0
    case AddMember(k, _, j, _) =>
      var x := s.Operand(k);
      if x != null && x in s.looks && s.looks[x].u.AssocObject? && j < |s.pushed| then inter.CheckLoss() else 0
    case Collect => inter.StrandedBytes()
    case _ => 0
  }

  lemma {:induction false} BottomLoss(inter: Interp, op: Op)
    ensures inter.AtBottom() ==> Loss(inter, op) == 0
  {
    hide Interp.StrandedBytes, Interp.AtBottom, Safe, Keep, Interp.Live, StateOf, State.Opens, State.Operand;
    BeforeCollection(inter);
  }

  // creation

  /** The objects left by the check for a collection, in the words of the state. */
  lemma {:induction false} CheckedState(inter: Interp)
    requires inter.Valid()
    ensures inter.Checked() == inter.objs || inter.Checked() == Keep(inter.objs, StateOf(inter).Live())
    ensures forall o :: o in inter.Checked() ==> o in inter.objs
  {
    hide *;
    FramedValid(inter);
    SameGraph(inter);
    CheckSplit(inter);
    forall o | o in inter.Checked()
      ensures o in inter.objs
    {
      KeepIn(inter.objs, inter.Live(), o);
    }
  }

  /** One more object is on the list, and nothing else has changed but by a collection. */
  ghost predicate Entered(s: State, s': State, obj: Obj) {
    && s'.objs != [] && s'.objs[0] == obj && obj !in s.objs && obj in s'.looks
    && Trimmed(s, s'.objs[1..], s'.looks) && s' == s.(objs := s'.objs, looks := s'.looks)
  }

  lemma {:induction false} EnteredNow(inter: Interp, s: State, obj: Obj, rest: seq<Obj>)
    requires inter.objs == [obj] + rest && obj !in s.objs && (rest == s.objs || rest == Keep(s.objs, s.Live()))
    requires forall o :: o in rest ==> o in s.looks && LookOf(o) == s.looks[o]
    requires StateWith(inter, s.looks) == s.(objs := inter.objs)
    ensures Entered(s, StateOf(inter), obj) && StateOf(inter).looks[obj] == LookOf(obj)
  {
    hide LookOf, Keep, State.Live;
    var s' := StateOf(inter);
    assert s'.objs[1..] == rest;
    assert s'.looks == LooksOf(inter.objs);
  }

  lemma {:induction false} PushedMade(s: State, s1: State, s2: State, obj: Obj)
    requires Entered(s, s1, obj) && s2 == s1.(pushed := s1.pushed + [Ref(obj)])
    ensures Made(s, s2) && s2.objs[0] == obj && s2.looks == s1.looks
  {
    hide Trimmed;
  }

  /** What the objects hold is not touched by the creation of another. */
  method CreateLooked(inter: Interp, u: Payload) returns (obj: Obj)
    requires inter.Valid() && !u.ArrayObject? && PlainKids(u) == {} && (u.AssocObject? ==> u.members == map[])
    modifies inter`heapSize, inter`threshold, inter`header, inter`objs, inter`graph, inter`shapes, inter`repr
    modifies (set o | o in inter.objs)`prev, (set o | o in inter.objs)`next, (set o | o in inter.objs)`marked
    modifies Storages(inter.objs, inter.shapes)
    ensures inter.Valid() && fresh(obj) && obj.u == u && fresh(inter.repr - old(inter.repr))
    ensures inter.objs == [obj] + old(inter.Checked())
    ensures Safe(inter, old(inter.Live()), old(inter.Drift() + inter.CheckLoss()), old(inter.AtBottom()))
    ensures forall o :: o in old(inter.objs) ==> LookOf(o) == old(LookOf(o))
    ensures LookOf(obj) == Look(u, null, 0, 0, [])
  {
    hide Interp.Valid, Interp.Live, Interp.Checked, Interp.CheckLoss, Interp.Drift, Interp.AtBottom, Safe;
    hide Storages, PlainKids;
    obj := Create(inter, u);
    forall o | o in old(inter.objs)
      ensures LookOf(o) == old(LookOf(o))
    {
    }
  }

  /** The state as it was, with another list. */
  lemma SameRoots(inter: Interp, s: State)
    requires inter.Pushed() == s.pushed && inter.globals == s.globals && inter.modules == s.modules
    requires inter.envs == s.envs && inter.exception == s.exception
    ensures StateWith(inter, s.looks) == s.(objs := inter.objs)
  {
  }

  lemma StateParts(inter: Interp)
    ensures var s := StateOf(inter);
      && inter.Pushed() == s.pushed && inter.globals == s.globals && inter.modules == s.modules
      && inter.envs == s.envs && inter.exception == s.exception && inter.objs == s.objs
    ensures forall o :: o in inter.objs ==> o in StateOf(inter).looks && StateOf(inter).looks[o] == LookOf(o)
  {
  }

  /** A reference to the object just entered goes on top of the stack. */
  method PushMade(inter: Interp, obj: Obj, ghost s: State, ghost live: set<Obj>, ghost drift: int, ghost bottom: bool)
    requires inter.Framed() && Safe(inter, live, drift, bottom) && Entered(s, StateOf(inter), obj)
    modifies inter`stack, inter`sp
    ensures inter.Framed() && (inter.Valid() <==> old(inter.Valid())) && Safe(inter, live, drift, bottom)
    ensures Made(s, StateOf(inter)) && StateOf(inter).objs[0] == obj
    ensures StateOf(inter).looks == old(StateOf(inter)).looks
  {
    hide *;
    EnteredListed(inter, s, obj);
    ghost var s1 := StateOf(inter);
    PushLooked(inter, Ref(obj), live, drift, bottom);
    PushedMade(s, s1, StateOf(inter), obj);
  }

  lemma EnteredListed(inter: Interp, s: State, obj: Obj)
    requires Entered(s, StateOf(inter), obj)
    ensures Targets(Ref(obj)) <= set o | o in inter.objs
  {
    hide Trimmed, LooksOf;
    assert StateOf(inter).objs == inter.objs;
  }

  lemma {:induction false} PlainNext(op: Op, s: State, s': State, u: Payload)
    requires Made(s, s') && s'.looks[s'.objs[0]] == Look(u, null, 0, 0, []) && PlainOp(op, u)
    ensures Next(op, s, s')
  {
    hide Made;
  }

  /** The step makes an object with this payload, which is not an array. */
  predicate PlainOp(op: Op, u: Payload) {
    match op
    case NewString(length, isLiteral) => u == StringObject(length, isLiteral)
    case NewAssoc => u == AssocObject(map[])
    case NewScope => u == ScopeChain(null, null)
    case NewNative(pointer) => u == NativePointer(pointer)
    case _ => false
  }

  lemma PlainOpIs(inter: Interp, op: Op, u: Payload)
    requires PlainOp(op, u)
    ensures !u.ArrayObject? && PlainKids(u) == {} && (u.AssocObject? ==> u.members == map[])
    ensures Loss(inter, op) == inter.CheckLoss()
  {
    hide Interp.CheckLoss;
  }

  /** A new object that is not an array. */
  method StepCreate(inter: Interp, op: Op, u: Payload)
    requires inter.Valid() && PlainOp(op, u)
    modifies inter, inter.repr
    ensures inter.Valid() && fresh(inter.repr - old(inter.repr))
    ensures Next(op, old(StateOf(inter)), StateOf(inter))
    ensures Safe(inter, old(inter.Live()), old(inter.Drift() + Loss(inter, op)), old(inter.AtBottom()))
    ensures old(Loss(inter, op)) == inter.size.ofValue * Lost(old(StateOf(inter)), StateOf(inter))
  {
    hide *;
    ghost var s, live, bottom := StateOf(inter), inter.Live(), inter.AtBottom();
    ghost var drift := inter.Drift() + inter.CheckLoss();
    PlainOpIs(inter, op, u);
    StepFrame(inter);
    CheckedState(inter);
    FramedValid(inter);
    CheckedLost(inter);
    StateParts(inter);
    ghost var rest := inter.Checked();
    var obj := CreateLooked(inter, u);
    SameRoots(inter, s);
    EnteredNow(inter, s, obj, rest);
    FramedValid(inter);
    PushMade(inter, obj, s, live, drift, bottom);
    PlainNext(op, s, StateOf(inter), u);
    StateObjs(inter);
    MadeLost(s, StateOf(inter), obj, rest);
  }

  method ArrayLooked(inter: Interp, size: nat) returns (obj: Obj)
    requires inter.Valid()
    modifies inter`heapSize, inter`threshold, inter`header, inter`objs, inter`graph, inter`shapes, inter`repr
    modifies (set o | o in inter.objs)`prev, (set o | o in inter.objs)`next, (set o | o in inter.objs)`marked
    modifies Storages(inter.objs, inter.shapes)
    ensures inter.Valid() && fresh(obj) && fresh(inter.repr - old(inter.repr))
    ensures inter.objs == [obj] + old(inter.Checked())
    ensures Safe(inter, old(inter.Live()), old(inter.Drift() + inter.CheckLoss()), old(inter.AtBottom()))
    ensures forall o :: o in old(inter.objs) ==>
      LookOf(o) == old(LookOf(o)) && LookOf(o).Storage() != LookOf(obj).Storage()
    ensures obj.u.ArrayObject? && LookOf(obj) == Look(obj.u, LookOf(obj).owner, 0, size, Nulls(size))
  {
    hide Interp.Valid, Interp.Live, Interp.Checked, Interp.CheckLoss, Interp.Drift, Interp.AtBottom, Safe;
    hide Storages, Nulls;
    obj := CreateArray(inter, size);
    forall o | o in old(inter.objs)
      ensures LookOf(o) == old(LookOf(o)) && LookOf(o).Storage() != LookOf(obj).Storage()
    {
    }
  }

  lemma {:induction false} ArrayNext(s: State, s': State, size: nat)
    requires Made(s, s') && forall o :: o in s.looks ==> s.looks[o].Storage() != s'.looks[s'.objs[0]].Storage()
    requires var l := s'.looks[s'.objs[0]]; l.u.ArrayObject? && l == Look(l.u, l.owner, 0, size, Nulls(size))
    ensures Next(NewArray(size), s, s')
  {
    hide Made, Nulls;
  }

  lemma LooksListed(inter: Interp, s: State)
    requires s == StateOf(inter)
    ensures forall o :: o in s.looks ==> o in inter.objs
  {
  }

  method StepArray(inter: Interp, size: nat)
    requires inter.Valid()
    modifies inter, inter.repr
    ensures inter.Valid() && fresh(inter.repr - old(inter.repr))
    ensures Next(NewArray(size), old(StateOf(inter)), StateOf(inter))
    ensures Safe(inter, old(inter.Live()), old(inter.Drift() + inter.CheckLoss()), old(inter.AtBottom()))
    ensures old(inter.CheckLoss()) == inter.size.ofValue * Lost(old(StateOf(inter)), StateOf(inter))
  {
    hide *;
    ghost var s, live, bottom := StateOf(inter), inter.Live(), inter.AtBottom();
    ghost var drift := inter.Drift() + inter.CheckLoss();
    StepFrame(inter);
    CheckedState(inter);
    FramedValid(inter);
    CheckedLost(inter);
    StateParts(inter);
    LooksListed(inter, s);
    ghost var rest := inter.Checked();
    var obj := ArrayLooked(inter, size);
    SameRoots(inter, s);
    EnteredNow(inter, s, obj, rest);
    FramedValid(inter);
    ghost var l := LookOf(obj);
    forall o | o in s.looks
      ensures s.looks[o].Storage() != l.Storage()
    {
      assert o in old(inter.objs);
    }
    PushMade(inter, obj, s, live, drift, bottom);
    ArrayNext(s, StateOf(inter), size);
    StateObjs(inter);
    MadeLost(s, StateOf(inter), obj, rest);
  }

  method SliceLooked(inter: Interp, arr: Slice<CrbValue>, begin: nat, end: nat, ghost src: Obj) returns (obj: Obj)
    requires inter.Valid() && src in inter.Live() && src.u == ArrayObject(arr)
    requires begin <= end && arr.pos + end <= arr.data.data.Length
    modifies inter`heapSize, inter`threshold, inter`header, inter`objs, inter`graph, inter`shapes, inter`repr
    modifies (set o | o in inter.objs)`prev, (set o | o in inter.objs)`next, (set o | o in inter.objs)`marked
    modifies Storages(inter.objs, inter.shapes)
    ensures inter.Framed() && fresh(obj) && fresh(inter.repr - old(inter.repr)) && (end <= arr.len ==> inter.Valid())
    ensures inter.Valid() <==> LookOf(obj).Refs() <= set o | o in inter.objs
    ensures inter.objs == [obj] + old(inter.Checked())
    ensures Safe(inter, old(inter.Live()), old(inter.Drift() + inter.CheckLoss()), old(inter.AtBottom()) && begin == 0)
    ensures forall o :: o in old(inter.objs) ==> LookOf(o) == old(LookOf(o))
    ensures obj.u.ArrayObject?
    ensures LookOf(obj) == Look(obj.u, arr.data, arr.pos + begin, end - begin, old(arr.data.data[..]))
  {
    hide Interp.Valid, Interp.Framed, Interp.Live, Interp.Checked, Interp.CheckLoss, Interp.Drift;
    hide Interp.AtBottom, Safe, Storages, AllTargets;
    obj := CreateArraySlice(inter, arr, begin, end, src);
    forall o | o in old(inter.objs)
      ensures LookOf(o) == old(LookOf(o))
    {
    }
  }

  lemma {:induction false} SliceNext(s: State, s': State, k: nat, begin: int, end: int)
    requires Made(s, s') && s.Opens(k, begin, end)
    requires var l, x := s'.looks[s'.objs[0]], s.looks[s.Operand(k)];
      l.u.ArrayObject? && l == Look(l.u, x.owner, x.pos + begin, end - begin, x.cells)
    ensures Next(NewSlice(k, begin, end), s, s')
  {
    hide Made, State.Operand;
  }

  /** When a slice expression is accepted, in terms of the object. */
  lemma OpensIs(inter: Interp, k: nat, begin: int, end: int)
    requires StateOf(inter).Operand(k) != null ==> StateOf(inter).Operand(k) in inter.objs
    ensures var o := StateOf(inter).Operand(k);
      StateOf(inter).Opens(k, begin, end) <==>
        && o != null && o.u.ArrayObject? && 0 <= begin <= end
        && o.u.slice.pos + o.u.slice.pos + end <= o.u.slice.data.data.Length
    ensures var op, o := NewSlice(k, begin, end), StateOf(inter).Operand(k);
      StateOf(inter).Opens(k, begin, end) ==>
        && Loss(inter, op) == inter.CheckLoss() && (PastEnd(op, StateOf(inter)) <==> end > o.u.slice.len)
        && StateOf(inter).looks[o]
           == Look(o.u, o.u.slice.data, o.u.slice.pos, o.u.slice.len, o.u.slice.data.data[..])
    ensures !StateOf(inter).Opens(k, begin, end) ==>
      Loss(inter, NewSlice(k, begin, end)) == 0 && Next(NewSlice(k, begin, end), StateOf(inter), StateOf(inter))
  {
    hide State.Operand;
  }

  /** A slice of an array; its end may lie anywhere in the storage. */
  method StepSlice(inter: Interp, op: Op) returns (shown: Obj?)
    requires inter.Valid() && op.NewSlice?
    modifies inter, inter.repr
    ensures inter.Framed() && fresh(inter.repr - old(inter.repr))
    ensures shown == null ==> inter.Valid()
    ensures shown != null ==> inter.objs != [] && shown == inter.objs[0] && shown.u.ArrayObject? && fresh(shown)
    ensures shown != null <==> op.NewSlice? && old(StateOf(inter).Opens(op.of, op.begin, op.end))
    ensures shown != null ==> (inter.Valid() <==> LookOf(shown).Refs() <= set o | o in inter.objs)
    ensures !old(PastEnd(op, StateOf(inter))) ==> inter.Valid()
    ensures Next(op, old(StateOf(inter)), StateOf(inter))
    ensures Safe(inter, old(inter.Live()), old(inter.Drift() + Loss(inter, op)), old(inter.AtBottom()) && op.begin == 0)
    ensures old(Loss(inter, op)) == inter.size.ofValue * Lost(old(StateOf(inter)), StateOf(inter))
  {
    hide *;
    ghost var s, live, bottom := StateOf(inter), inter.Live(), inter.AtBottom() && op.begin == 0;
    ghost var drift := inter.Drift() + Loss(inter, op);
    StepFrame(inter);
    FramedValid(inter);
    OperandLive(inter, op.of);
    OpensIs(inter, op.of, op.begin, op.end);
    SafeNow(inter);
    var o := ObjectAt(inter, op.of);
    if o != null && o.u.ArrayObject? && 0 <= op.begin <= op.end {
      LookIs(inter, o);
      var slice := o.u.slice;
      if slice.pos + slice.pos + op.end <= slice.data.data.Length {
        shown := OpenSlice(inter, slice, op, o, s, live, drift, bottom);
        return;
      }
    }
    shown := null;
    SameLost(s, s);
    SafeLess(inter, live, drift, inter.AtBottom(), bottom);
  }

  /** The slice expression once it is accepted. */
  method OpenSlice(inter: Interp, slice: Slice<CrbValue>, op: Op, ghost o: Obj, ghost s: State,
                   ghost live: set<Obj>, ghost drift: int, ghost bottom: bool)
    returns (obj: Obj)
    requires inter.Valid() && s == StateOf(inter) && op.NewSlice? && s.Opens(op.of, op.begin, op.end)
    requires o == s.Operand(op.of) && o in inter.Live() && o.u == ArrayObject(slice)
    requires 0 <= op.begin <= op.end && slice.pos + op.end <= slice.data.data.Length
    requires o in s.looks && s.looks[o] == Look(o.u, slice.data, slice.pos, slice.len, slice.data.data[..])
    requires live == inter.Live() && drift == inter.Drift() + inter.CheckLoss()
    requires bottom == (inter.AtBottom() && op.begin == 0)
    modifies inter, inter.repr
    ensures inter.Framed() && fresh(inter.repr - old(inter.repr)) && (op.end <= old(slice.len) ==> inter.Valid())
    ensures Next(op, s, StateOf(inter)) && Safe(inter, live, drift, bottom)
    ensures inter.objs != [] && obj == inter.objs[0] && obj.u.ArrayObject? && fresh(obj)
    ensures inter.Valid() <==> LookOf(obj).Refs() <= set o | o in inter.objs
    ensures old(inter.CheckLoss()) == inter.size.ofValue * Lost(old(StateOf(inter)), StateOf(inter))
  {
    hide *;
    StepFrame(inter);
    CheckedState(inter);
    FramedValid(inter);
    CheckedLost(inter);
    StateParts(inter);
    ghost var rest := inter.Checked();
    obj := SliceLooked(inter, slice, op.begin, op.end, o);
    SameRoots(inter, s);
    EnteredNow(inter, s, obj, rest);
    ghost var l := LookOf(obj);
    PushMade(inter, obj, s, live, drift, bottom);
    SliceNext(s, StateOf(inter), op.of, op.begin, op.end);
    LookIs(inter, obj);
    StateObjs(inter);
    MadeLost(s, StateOf(inter), obj, rest);
  }

  lemma {:induction false} MadeLost(s: State, s': State, obj: Obj, rest: seq<Obj>)
    requires s'.objs == [obj] + rest && obj !in s.objs
    ensures Lost(s, s') == LostTo(s, rest)
  {
    hide LostTo;
    JoinedLost(s, rest, s'.objs);
  }

  lemma LostIs(s: State, s': State)
    ensures Lost(s, s') == LostTo(s, s'.objs)
  {
  }

  lemma SameLost(s: State, s': State)
    requires s'.objs == s.objs
    ensures Lost(s, s') == 0
  {
    hide LostTo;
    NothingLost(s, s'.objs);
  }

  // stores

  /** The steps without an allocation strand nothing. */
  lemma NoLoss(inter: Interp, op: Op)
    requires Storing(op) || op.InsertElement? || Reads(op) || RootOp(op)
    ensures Loss(inter, op) == 0
  {
    hide StateOf, State.Opens, State.Operand, Interp.CheckLoss, Interp.StrandedBytes;
  }

  predicate Storing(op: Op) {
    op.SetElement? || op.AppendElement? || op.PopElement? || op.LinkScope?
  }

  lemma {:induction false} NextLost(op: Op, s: State, s': State)
    requires Next(op, s, s') && (Storing(op) || op.InsertElement? || Reads(op) || RootOp(op))
    ensures Lost(s, s') == 0
  {
    hide *;
    SameObjs(op, s, s');
    SameLost(s, s');
  }

  lemma SameObjs(op: Op, s: State, s': State)
    requires Next(op, s, s') && (Storing(op) || op.InsertElement? || Reads(op) || RootOp(op))
    ensures s'.objs == s.objs
  {
    hide Read, RootsAfter, HeapNext;
    if Reads(op) {
    } else if RootOp(op) {
      RootsKeep(op, s);
    } else {
      StoreKeeps(op, s, s');
    }
  }

  lemma RootsKeep(op: Op, s: State)
    ensures RootsAfter(op, s).objs == s.objs
  {
    hide State.Operand, State.Slot;
  }

  lemma StoreKeeps(op: Op, s: State, s': State)
    requires HeapNext(op, s, s') && (Storing(op) || op.InsertElement?)
    ensures s'.objs == s.objs
  {
    hide SetLooks, PopLooks, AppendLooks, InsertLooks, State.Inserts, State.Extends, State.Operand, State.IsArray;
  }

  lemma StoreState(inter: Interp, s: State, looks: map<Obj, Look>)
    requires inter.Pushed() == s.pushed && inter.globals == s.globals && inter.modules == s.modules
    requires inter.envs == s.envs && inter.exception == s.exception && inter.objs == s.objs
    requires LooksOf(inter.objs) == looks
    ensures StateOf(inter) == s.(looks := looks)
  {
  }

  lemma LooksState(inter: Interp)
    ensures StateOf(inter).looks == LooksOf(inter.objs)
  {
  }

  /** What a store into an array needs. */
  lemma {:induction false} ArrayParts(inter: Interp, o: Obj)
    requires inter.Valid() && o in inter.objs && o.u.ArrayObject?
    ensures InBounds(o.u.slice) && o.u.slice in inter.repr && o.u.slice.data in inter.repr
    ensures o.u.slice.data.data in inter.repr
  {
    InReprArray(inter, o);
    SoundSlice(inter, o);
  }

  ghost predicate Sets(op: Op, s: State) {
    && op.SetElement? && s.IsArray(s.Operand(op.of)) && 0 <= op.index < s.looks[s.Operand(op.of)].len
    && op.value < |s.pushed|
  }

  lemma SetIs(op: Op, s: State, s': State)
    requires op.SetElement?
    requires s' == if Sets(op, s)
                   then s.(looks := SetLooks(s.looks, s.Operand(op.of), op.index, s.pushed[op.value])) else s
    ensures Next(op, s, s')
  {
    hide SetLooks;
  }

  lemma SetsIs(inter: Interp, op: Op)
    requires op.SetElement? && inter.sp <= |inter.stack|
    requires StateOf(inter).Operand(op.of) != null ==> StateOf(inter).Operand(op.of) in inter.objs
    ensures var o := StateOf(inter).Operand(op.of);
      Sets(op, StateOf(inter)) <==>
        o != null && o.u.ArrayObject? && 0 <= op.index < o.u.slice.len && op.value < inter.sp
  {
    hide State.Operand;
    OperandIs(inter, op.of);
  }

  method StepSet(inter: Interp, op: Op)
    requires inter.Valid() && op.SetElement?
    modifies inter, inter.repr
    ensures inter.Valid() && fresh(inter.repr - old(inter.repr))
    ensures Next(op, old(StateOf(inter)), StateOf(inter))
    ensures Safe(inter, old(inter.Live()), old(inter.Drift()), old(inter.AtBottom()))
  {
    hide *;
    ghost var s, live, drift, bottom := StateOf(inter), inter.Live(), inter.Drift(), inter.AtBottom();
    SafeNow(inter);
    StepFrame(inter);
    StackFits(inter);
    var o := ObjectAt(inter, op.of);
    SetsIs(inter, op);
    if o != null && o.u.ArrayObject? && 0 <= op.index < o.u.slice.len && op.value < inter.sp {
      var v := ValueAt(inter, op.value);
      ArrayParts(inter, o);
      StateParts(inter);
      LooksState(inter);
      StoreSafe(inter, o.u.slice, op.index, v, o, live, drift, bottom);
      StoreState(inter, s, SetLooks(s.looks, o, op.index, v));
    }
    SetIs(op, s, StateOf(inter));
  }

  method StoreSafe(inter: Interp, slice: Slice<CrbValue>, index: nat, value: CrbValue, ghost obj: Obj,
                   ghost live: set<Obj>, ghost drift: int, ghost bottom: bool)
    requires inter.Valid() && obj in inter.objs && obj.u == ArrayObject(slice) && InBounds(slice) && index < slice.len
    requires Targets(value) <= (set o | o in inter.objs) && Safe(inter, live, drift, bottom)
    modifies inter`graph, inter`shapes, inter`repr, slice.data.data
    ensures inter.Valid() && inter.repr == old(inter.repr) && Safe(inter, live, drift, bottom)
    ensures obj in old(LooksOf(inter.objs))
    ensures LooksOf(inter.objs) == SetLooks(old(LooksOf(inter.objs)), obj, index, value)
  {
    hide *;
    SafeParts(inter, live, drift, bottom);
    ArraySet(inter, slice, index, value, obj);
    PartsSafe(inter, live, drift, bottom);
  }

  lemma PartsSafe(inter: Interp, live: set<Obj>, drift: int, bottom: bool)
    requires forall o :: o in live ==> o in inter.objs
    requires inter.heapSize - Bytes(inter.objs, inter.shapes, inter.size) == drift
    requires bottom ==> forall o :: o in inter.objs ==> Of(inter.shapes, o).pos == 0
    ensures Safe(inter, live, drift, bottom)
  {
  }

  lemma AppendIs(op: Op, s: State, s': State)
    requires op.AppendElement?
    requires if s.Extends(op.of, op.value)
             then s' == s.(looks := s'.looks)
                  && AppendLooks(s.looks, s'.looks, s.Operand(op.of), s.pushed[op.value])
             else s' == s
    ensures Next(op, s, s')
  {
    hide AppendLooks;
  }

  /** When an array can be extended, in terms of the object. */
  lemma ExtendsIs(inter: Interp, of: nat, value: nat)
    requires inter.sp <= |inter.stack|
    requires StateOf(inter).Operand(of) != null ==> StateOf(inter).Operand(of) in inter.objs
    ensures var s := StateOf(inter); var o := s.Operand(of);
      && (s.Extends(of, value) <==> o != null && o.u.ArrayObject? && value < inter.sp && Extensible(o.u.slice))
      && (o != null && o.u.ArrayObject? ==> o in s.looks && s.looks[o].len == o.u.slice.len)
  {
    hide State.Operand;
    OperandIs(inter, of);
  }

  method StepAppend(inter: Interp, op: Op)
    requires inter.Valid() && op.AppendElement?
    modifies inter, inter.repr
    ensures inter.Valid() && fresh(inter.repr - old(inter.repr))
    ensures Next(op, old(StateOf(inter)), StateOf(inter))
    ensures Safe(inter, old(inter.Live()), old(inter.Drift()), old(inter.AtBottom()))
  {
    hide *;
    ghost var s, live, drift, bottom := StateOf(inter), inter.Live(), inter.Drift(), inter.AtBottom();
    SafeNow(inter);
    StepFrame(inter);
    StackFits(inter);
    var o := ObjectAt(inter, op.of);
    ExtendsIs(inter, op.of, op.value);
    if o != null && o.u.ArrayObject? && op.value < inter.sp {
      ArrayParts(inter, o);
      var slice := o.u.slice;
      if Extensible(slice) {
        var v := ValueAt(inter, op.value);
        StateParts(inter);
        LooksState(inter);
        ghost var i :| 0 <= i < |inter.objs| && inter.objs[i] == o;
        ArrayAppend(inter, slice, v, i);
        StoreState(inter, s, LooksOf(inter.objs));
        SafeAfter(inter, live, drift, bottom, drift, bottom);
      }
    }
    AppendIs(op, s, StateOf(inter));
  }

  lemma InsertIs(op: Op, s: State, s': State)
    requires op.InsertElement?
    requires if s.Inserts(op.of, op.index, op.value)
             then s' == s.(looks := s'.looks)
                  && InsertLooks(s.looks, s'.looks, s.Operand(op.of), op.index, s.pushed[op.value])
             else s' == s
    ensures Next(op, s, s')
  {
    hide InsertLooks;
  }

  lemma InsertsIs(op: Op, s: State, o: Obj?)
    requires op.InsertElement? && o == s.Operand(op.of)
    ensures s.Inserts(op.of, op.index, op.value) <==>
      s.Extends(op.of, op.value) && o in s.looks && 0 <= op.index <= s.looks[o].len
    ensures !s.Inserts(op.of, op.index, op.value) ==> !LooksBehind(op, s)
    ensures s.Inserts(op.of, op.index, op.value) ==>
      (LooksBehind(op, s) <==> op.index != 0 && op.index != s.looks[o].len)
  {
  }

  /** An array refers to listed objects only if the cell an insertion has made an element does. */
  lemma {:induction false} InsertShows(inter: Interp, o: Obj, was: map<Obj, Look>, index: nat, value: CrbValue)
    requires inter.Framed() && o in inter.objs && InsertLooks(was, LooksOf(inter.objs), o, index, value)
    requires Fits(was[o]) && was[o].u.ArrayObject? && index <= was[o].len
    requires inter.Valid() <==> NewlyShown(was, LooksOf(inter.objs), o, index) <= set p | p in inter.objs
    ensures inter.Valid() <==> LookOf(o).Refs() <= set p | p in inter.objs
  {
    hide Interp.Valid, Interp.Framed, InsertLooks, NewlyShown, Look.Refs, LookOf, Fits;
    ShownRefs(was, LooksOf(inter.objs), o, index, value);
    LookKids(o);
    if inter.Valid() {
      KidsListed(inter, o);
    }
  }

  /** The cell behind what the array in a slot shows refers to nothing that has been freed. */
  ghost predicate BehindListed(of: nat, s: State) {
    s.HasRoom(of) && var l := s.looks[s.Operand(of)]; Targets(l.At(l.len)) <= set o | o in s.objs
  }

  /** The insertion once it is accepted. */
  method InsertNow(inter: Interp, slice: Slice<CrbValue>, op: Op, value: CrbValue, ghost o: Obj, ghost s: State)
    requires inter.Valid() && s == StateOf(inter) && op.InsertElement? && s.Inserts(op.of, op.index, op.value)
    requires o in inter.objs && o == s.Operand(op.of) && o.u == ArrayObject(slice) && Extensible(slice)
    requires 0 <= op.index <= slice.len && Targets(value) <= set p | p in inter.objs
    requires op.value < |s.pushed| && value == s.pushed[op.value]
    requires LooksBehind(op, s) <==> op.index != 0 && op.index != slice.len
    modifies inter`heapSize, inter`graph, inter`shapes, inter`repr, slice, slice.data, slice.data.data
    ensures inter.Framed() && fresh(inter.repr - old(inter.repr)) && inter.objs == old(inter.objs)
    ensures inter.Valid() <==> LookOf(o).Refs() <= set p | p in inter.objs
    ensures !LooksBehind(op, s) ==> inter.Valid()
    ensures LooksBehind(op, s) && s.HasRoom(op.of) ==> (inter.Valid() <==> BehindListed(op.of, s))
    ensures inter.Drift() == old(inter.Drift()) && (old(inter.AtBottom()) ==> inter.AtBottom())
    ensures var s' := StateOf(inter); s' == s.(looks := s'.looks) && InsertLooks(s.looks, s'.looks, o, op.index, value)
    ensures o.u == ArrayObject(slice)
  {
    hide *;
    StateParts(inter);
    LooksState(inter);
    ghost var i :| 0 <= i < |inter.objs| && inter.objs[i] == o;
    BeforeInsert(inter, slice, i);
    ghost var was := s.looks;
    ArrayInsert(inter, slice, op.index, value, i);
    StoreState(inter, s, LooksOf(inter.objs));
    LooksState(inter);
    ShownBehind(was, LooksOf(inter.objs), o, op.index, value);
    InsertShows(inter, o, was, op.index, value);
    RoomListed(op, s, o);
  }

  lemma RoomListed(op: Op, s: State, o: Obj)
    requires op.InsertElement? && s.Inserts(op.of, op.index, op.value) && o == s.Operand(op.of)
    ensures o in s.looks
    ensures s.HasRoom(op.of) ==> var l := s.looks[o];
      l.pos + l.len < |l.cells| && (BehindListed(op.of, s) <==> Targets(l.cells[l.pos + l.len]) <= set p | p in s.objs)
  {
    hide State.Operand, Targets;
  }

  /** An element is inserted. Between two elements of an array with room behind them that keeps the heap valid exactly
      if the cell behind refers to nothing that has been freed. */
  method StepInsert(inter: Interp, op: Op) returns (shown: Obj?)
    requires inter.Valid() && op.InsertElement?
    modifies inter, inter.repr
    ensures inter.Framed() && fresh(inter.repr - old(inter.repr))
    ensures shown == null ==> inter.Valid()
    ensures shown != null ==> shown == old(StateOf(inter).Operand(op.of)) && shown in inter.objs && shown.u.ArrayObject?
    ensures shown != null <==> old(StateOf(inter).Inserts(op.of, op.index, op.value))
    ensures shown != null ==> (inter.Valid() <==> LookOf(shown).Refs() <= set o | o in inter.objs)
    ensures !old(LooksBehind(op, StateOf(inter))) ==> inter.Valid()
    ensures old(LooksBehind(op, StateOf(inter)) && StateOf(inter).HasRoom(op.of)) ==>
      (inter.Valid() <==> old(BehindListed(op.of, StateOf(inter))))
    ensures Next(op, old(StateOf(inter)), StateOf(inter))
    ensures Safe(inter, old(inter.Live()), old(inter.Drift()), old(inter.AtBottom()))
  {
    hide *;
    ghost var s, live, drift, bottom := StateOf(inter), inter.Live(), inter.Drift(), inter.AtBottom();
    SafeNow(inter);
    StepFrame(inter);
    StackFits(inter);
    FramedValid(inter);
    shown := null;
    var o := ObjectAt(inter, op.of);
    ExtendsIs(inter, op.of, op.value);
    InsertsIs(op, s, o);
    if o != null && o.u.ArrayObject? && op.value < inter.sp {
      ArrayParts(inter, o);
      var slice := o.u.slice;
      if Extensible(slice) && 0 <= op.index <= slice.len {
        var v := ValueAt(inter, op.value);
        InsertNow(inter, slice, op, v, o, s);
        SafeAfter(inter, live, drift, bottom, drift, bottom);
        shown := o;
      }
    }
    InsertIs(op, s, StateOf(inter));
  }

  lemma {:induction false} ElementListed(inter: Interp, o: Obj, index: nat)
    requires inter.Valid() && o in inter.objs && o.u.ArrayObject? && index < o.u.slice.len
    ensures Targets(LookOf(o).At(index)) <= set p | p in inter.objs
  {
    hide *;
    SoundSlice(inter, o);
    KidsListed(inter, o);
    ElementKids(o, index);
  }

  lemma {:induction false} ElementKids(o: Obj, index: nat)
    requires o.u.ArrayObject? && InBounds(o.u.slice) && index < o.u.slice.len
    ensures Targets(LookOf(o).At(index)) <= Kids(o.u)
  {
    assert Cells(o.u.slice)[index] == LookOf(o).At(index);
  }

  ghost predicate Pops(op: Op, s: State) {
    op.PopElement? && s.IsArray(s.Operand(op.of)) && 0 <= op.index < s.looks[s.Operand(op.of)].len
  }

  lemma PopIs(op: Op, s: State, s': State)
    requires op.PopElement?
    requires if Pops(op, s)
             then var x := s.Operand(op.of);
               s' == s.(looks := PopLooks(s.looks, x, op.index), pushed := s.pushed + [s.looks[x].At(op.index)])
             else s' == s
    ensures Next(op, s, s')
  {
    hide PopLooks, Look.At;
  }

  lemma PopsIs(inter: Interp, op: Op)
    requires op.PopElement?
    requires StateOf(inter).Operand(op.of) != null ==> StateOf(inter).Operand(op.of) in inter.objs
    ensures var o := StateOf(inter).Operand(op.of);
      Pops(op, StateOf(inter)) <==> o != null && o.u.ArrayObject? && 0 <= op.index < o.u.slice.len
  {
    hide State.Operand;
  }

  /** The element taken out is the result, on top of the stack. */
  method StepPopElement(inter: Interp, op: Op)
    requires inter.Valid() && op.PopElement?
    modifies inter, inter.repr
    ensures inter.Valid() && fresh(inter.repr - old(inter.repr))
    ensures Next(op, old(StateOf(inter)), StateOf(inter))
    ensures Safe(inter, old(inter.Live()), old(inter.Drift()), old(inter.AtBottom()))
  {
    hide *;
    ghost var s, live, drift, bottom := StateOf(inter), inter.Live(), inter.Drift(), inter.AtBottom();
    SafeNow(inter);
    StepFrame(inter);
    var o := ObjectAt(inter, op.of);
    PopsIs(inter, op);
    if o != null && o.u.ArrayObject? && 0 <= op.index < o.u.slice.len {
      ArrayParts(inter, o);
      StateParts(inter);
      LooksState(inter);
      ElementListed(inter, o, op.index);
      var v := PopSafe(inter, o.u.slice, op.index, o, live, drift, bottom);
      StoreState(inter, s, PopLooks(s.looks, o, op.index));
      FramedValid(inter);
      PushLooked(inter, v, live, drift, bottom);
    }
    PopIs(op, s, StateOf(inter));
  }

  method PopSafe(inter: Interp, slice: Slice<CrbValue>, index: nat, ghost obj: Obj,
                 ghost live: set<Obj>, ghost drift: int, ghost bottom: bool)
    returns (value: CrbValue)
    requires inter.Valid() && obj in inter.objs && obj.u == ArrayObject(slice) && InBounds(slice) && index < slice.len
    requires Safe(inter, live, drift, bottom)
    modifies inter`graph, inter`shapes, inter`repr, slice`len, slice.data.data
    ensures inter.Valid() && inter.repr == old(inter.repr) && Safe(inter, live, drift, bottom)
    ensures obj in old(LooksOf(inter.objs)) && LooksOf(inter.objs) == PopLooks(old(LooksOf(inter.objs)), obj, index)
    ensures value == old(LooksOf(inter.objs))[obj].At(index)
  {
    hide *;
    SafeParts(inter, live, drift, bottom);
    ghost var i :| 0 <= i < |inter.objs| && inter.objs[i] == obj;
    value := ArrayPop(inter, slice, index, i);
    PartsSafe(inter, live, drift, bottom);
  }

  ghost predicate Adds(op: Op, s: State) {
    && op.AddMember? && op.value < |s.pushed|
    && var x := s.Operand(op.of); x != null && x in s.looks && s.looks[x].u.AssocObject?
  }

  lemma AddIs(op: Op, s: State, s': State)
    requires op.AddMember?
    requires if Adds(op, s)
             then MemberAdded(s, s', s.Operand(op.of), op.name, Member(s.pushed[op.value], op.isFinal)) else s' == s
    ensures Next(op, s, s')
  {
    hide MemberAdded;
  }

  lemma AddsIs(inter: Interp, op: Op)
    requires op.AddMember? && inter.sp <= |inter.stack|
    requires StateOf(inter).Operand(op.of) != null ==> StateOf(inter).Operand(op.of) in inter.objs
    ensures var o := StateOf(inter).Operand(op.of);
      Adds(op, StateOf(inter)) <==> o != null && o.u.AssocObject? && op.value < inter.sp
    ensures Loss(inter, op) == if Adds(op, StateOf(inter)) then inter.CheckLoss() else 0
  {
    hide State.Operand, Interp.CheckLoss;
    OperandIs(inter, op.of);
  }

  /** The other objects keep what they hold. */
  method MemberLooked(inter: Interp, assoc: Obj, name: int, value: CrbValue, isFinal: bool)
    requires inter.Valid() && assoc in inter.Live() && assoc.u.AssocObject? && Targets(value) <= inter.Live()
    modifies inter`heapSize, inter`threshold, inter`header, inter`objs, inter`graph, inter`shapes, inter`repr, assoc`u
    modifies (set o | o in inter.objs)`prev, (set o | o in inter.objs)`next, (set o | o in inter.objs)`marked
    modifies Storages(inter.objs, inter.shapes)
    ensures inter.Valid() && inter.repr == old(inter.repr) && inter.objs == old(inter.Checked())
    ensures LookOf(assoc) == Look(AssocObject(old(assoc.u.members)[name := Member(value, isFinal)]), null, 0, 0, [])
    ensures forall o :: o in old(inter.objs) && o != assoc ==> LookOf(o) == old(LookOf(o))
    ensures Safe(inter, old(inter.Live()), old(inter.Drift() + inter.CheckLoss()), old(inter.AtBottom()))
  {
    hide Interp.Valid, Interp.Live, Interp.Checked, Interp.CheckLoss, Interp.Drift, Interp.AtBottom, Safe;
    hide Storages, Targets;
    GcMutator.AddMember(inter, assoc, name, value, isFinal);
    forall o | o in old(inter.objs) && o != assoc
      ensures LookOf(o) == old(LookOf(o))
    {
    }
  }

  lemma {:induction false} AddedNow(inter: Interp, s: State, assoc: Obj, name: int, m: Member)
    requires assoc in inter.objs && assoc in s.looks && s.looks[assoc].u.AssocObject?
    requires inter.objs == s.objs || inter.objs == Keep(s.objs, s.Live())
    requires forall o :: o in inter.objs ==> o in s.looks && (o != assoc ==> LookOf(o) == s.looks[o])
    requires LookOf(assoc) == Look(AssocObject(s.looks[assoc].u.members[name := m]), null, 0, 0, [])
    requires StateWith(inter, s.looks) == s.(objs := inter.objs)
    ensures MemberAdded(s, StateOf(inter), assoc, name, m)
  {
    hide LookOf, Keep, State.Live;
    var s' := StateOf(inter);
    assert s'.looks == LooksOf(inter.objs);
  }

  lemma SafeListed(inter: Interp, live: set<Obj>, drift: int, bottom: bool, o: Obj)
    requires Safe(inter, live, drift, bottom) && o in live
    ensures o in inter.objs
  {
  }

  method StepMember(inter: Interp, op: Op)
    requires inter.Valid() && op.AddMember?
    modifies inter, inter.repr
    ensures inter.Valid() && fresh(inter.repr - old(inter.repr))
    ensures Next(op, old(StateOf(inter)), StateOf(inter))
    ensures Safe(inter, old(inter.Live()), old(inter.Drift() + Loss(inter, op)), old(inter.AtBottom()))
    ensures old(Loss(inter, op)) == inter.size.ofValue * Lost(old(StateOf(inter)), StateOf(inter))
  {
    hide *;
    ghost var s, live, bottom := StateOf(inter), inter.Live(), inter.AtBottom();
    ghost var drift := inter.Drift() + Loss(inter, op);
    SafeNow(inter);
    StepFrame(inter);
    StackFits(inter);
    OperandLive(inter, op.of);
    AddsIs(inter, op);
    var o := ObjectAt(inter, op.of);
    SameLost(s, s);
    if o != null && o.u.AssocObject? && op.value < inter.sp {
      var v := ValueAt(inter, op.value);
      LookIs(inter, o);
      CheckedState(inter);
      FramedValid(inter);
      CheckedLost(inter);
      StateParts(inter);
      MemberLooked(inter, o, op.name, v, op.isFinal);
      SafeListed(inter, live, drift, bottom, o);
      SameRoots(inter, s);
      AddedNow(inter, s, o, op.name, Member(v, op.isFinal));
      StateObjs(inter);
      LostIs(s, StateOf(inter));
    }
    AddIs(op, s, StateOf(inter));
  }

  lemma OneListed(inter: Interp, o: Obj?)
    requires o != null ==> o in inter.objs
    ensures One(o) <= set p | p in inter.objs
  {
  }

  method ScopeLooked(inter: Interp, obj: Obj, frame: Obj?, next: Obj?, ghost live: set<Obj>, ghost drift: int,
                     ghost bottom: bool)
    requires inter.Valid() && obj in inter.objs && obj.u.ScopeChain? && Safe(inter, live, drift, bottom)
    requires One(frame) <= (set o | o in inter.objs) && One(next) <= set o | o in inter.objs
    modifies inter`graph, inter`shapes, inter`repr, obj`u
    ensures inter.Valid() && inter.repr == old(inter.repr) && Safe(inter, live, drift, bottom)
    ensures LooksOf(inter.objs) == old(LooksOf(inter.objs))[obj := Look(ScopeChain(frame, next), null, 0, 0, [])]
  {
    hide Interp.Valid, Interp.Drift, Interp.AtBottom, Safe, One;
    ghost var looks, atBottom := LooksOf(inter.objs), inter.AtBottom();
    SafeSplit(inter, live, drift, bottom);
    ghost var i :| 0 <= i < |inter.objs| && inter.objs[i] == obj;
    SetScope(inter, obj, frame, next, i);
    SafeAfter(inter, live, drift, bottom, drift, atBottom);
    forall o | o in inter.objs && o != obj
      ensures LookOf(o) == looks[o]
    {
    }
    assert LookOf(obj) == Look(ScopeChain(frame, next), null, 0, 0, []);
    assert LooksOf(inter.objs) == looks[obj := Look(ScopeChain(frame, next), null, 0, 0, [])];
  }

  ghost predicate Links(op: Op, s: State) {
    op.LinkScope? && var x := s.Operand(op.of); x != null && x in s.looks && s.looks[x].u.ScopeChain?
  }

  lemma LinkIs(op: Op, s: State, s': State)
    requires op.LinkScope?
    requires s' == if Links(op, s)
                   then var u := ScopeChain(s.Operand(op.frame), s.Operand(op.next));
                        s.(looks := s.looks[s.Operand(op.of) := Look(u, null, 0, 0, [])])
                   else s
    ensures Next(op, s, s')
  {
  }

  lemma LinksIs(inter: Interp, op: Op)
    requires op.LinkScope?
    requires StateOf(inter).Operand(op.of) != null ==> StateOf(inter).Operand(op.of) in inter.objs
    ensures var o := StateOf(inter).Operand(op.of); Links(op, StateOf(inter)) <==> o != null && o.u.ScopeChain?
  {
    hide State.Operand;
  }

  method StepScope(inter: Interp, op: Op)
    requires inter.Valid() && op.LinkScope?
    modifies inter, inter.repr
    ensures inter.Valid() && fresh(inter.repr - old(inter.repr))
    ensures Next(op, old(StateOf(inter)), StateOf(inter))
    ensures Safe(inter, old(inter.Live()), old(inter.Drift()), old(inter.AtBottom()))
  {
    hide *;
    ghost var s, live, drift, bottom := StateOf(inter), inter.Live(), inter.Drift(), inter.AtBottom();
    SafeNow(inter);
    StepFrame(inter);
    var o := ObjectAt(inter, op.of);
    LinksIs(inter, op);
    if o != null && o.u.ScopeChain? {
      var f := ObjectAt(inter, op.frame);
      var n := ObjectAt(inter, op.next);
      OneListed(inter, f);
      OneListed(inter, n);
      StateParts(inter);
      LooksState(inter);
      ScopeLooked(inter, o, f, n, live, drift, bottom);
      StoreState(inter, s, LooksOf(inter.objs));
    }
    LinkIs(op, s, StateOf(inter));
  }

  // roots and collections

  /** No root refers to an object that is not on the list. */
  lemma {:induction false} RootsListed(inter: Interp)
    requires inter.Valid()
    ensures var listed := set o | o in inter.objs;
      && AllTargets(inter.globals) <= listed && ModuleTargets(inter.modules) <= listed
      && EnvTargets(inter.envs) <= listed && Targets(inter.exception) <= listed
  {
    hide Intact, Closed, SlicesApart, AllTargets, ModuleTargets, EnvTargets, Targets;
    ValidParts(inter);
  }

  lemma VariableTargets(s: seq<CrbValue>, k: nat)
    requires k < |s|
    ensures Targets(s[k]) <= AllTargets(s)
  {
  }

  lemma ModuleVariable(modules: seq<seq<CrbValue>>, i: nat, k: nat)
    requires i < |modules| && k < |modules[i]|
    ensures Targets(modules[i][k]) <= ModuleTargets(modules)
  {
    hide Targets;
    VariableTargets(modules[i], k);
  }

  lemma TopEnvironment(envs: seq<Env>, k: nat)
    requires envs != []
    ensures One(envs[0].scopeChain) <= EnvTargets(envs)
    ensures k < |envs[0].refs| ==> One(envs[0].refs[k]) <= EnvTargets(envs)
  {
    var e := envs[0];
    assert forall x :: x in One(e.scopeChain) + RefTargets(e.refs) ==> x in EnvTargets(envs);
    assert k < |e.refs| ==> One(e.refs[k]) <= RefTargets(e.refs);
  }

  /** A reference, if there is one. */
  lemma ReferenceIs(o: Obj?)
    ensures Link(o) == if o != null then Found(Ref(o)) else Nothing
    ensures o != null ==> Targets(Ref(o)) == One(o)
    ensures Targets(Closure(o)) == One(o) && Targets(FakeMethod(o)) == One(o)
  {
  }

  lemma ReadIs(op: Op, s: State)
    requires ReadsRoot(op)
    ensures match op
      case LoadGlobal(k) => Read(op, s) == if k < |s.globals| then Found(s.globals[k]) else Nothing
      case LoadModule(i, k) =>
        Read(op, s) == if i < |s.modules| && k < |s.modules[i]| then Found(s.modules[i][k]) else Nothing
      case LoadException => Read(op, s) == Found(s.exception)
      case LoadScope => Read(op, s) == if s.envs == [] then Nothing else Link(s.envs[0].scopeChain)
      case LoadHeld(k) =>
        Read(op, s) == if s.envs == [] || k >= |s.envs[0].refs| then Nothing else Link(s.envs[0].refs[k])
      case MakeClosure => Read(op, s) == Found(Closure(if s.envs == [] then null else s.envs[0].scopeChain))
      case _ => true
  {
    hide Link;
  }

  /** A variable of the program or of a module, or the current exception. */
  method ReadVariable(inter: Interp, op: Op) returns (found: bool, v: CrbValue)
    requires inter.Valid() && (op.LoadGlobal? || op.LoadModule? || op.LoadException?)
    ensures Read(op, StateOf(inter)) == if found then Found(v) else Nothing
    ensures found ==> Targets(v) <= set o | o in inter.objs
    ensures StateOf(inter) == old(StateOf(inter))
  {
    hide *;
    RootKinds(op);
    RootsListed(inter);
    StateParts(inter);
    ReadIs(op, StateOf(inter));
    found, v := false, Plain(0);
    match op {
      case LoadGlobal(k) =>
        if k < |inter.globals| {
          VariableTargets(inter.globals, k);
          found, v := true, inter.globals[k];
        }
      case LoadModule(i, k) =>
        if i < |inter.modules| && k < |inter.modules[i]| {
          ModuleVariable(inter.modules, i, k);
          found, v := true, inter.modules[i][k];
        }
      case LoadException =>
        found, v := true, inter.exception;
    }
  }

  /** What belongs to the environment on top. */
  method ReadEnvironment(inter: Interp, op: Op) returns (found: bool, v: CrbValue)
    requires inter.Valid() && (op.LoadScope? || op.LoadHeld? || op.MakeClosure?)
    ensures Read(op, StateOf(inter)) == if found then Found(v) else Nothing
    ensures found ==> Targets(v) <= set o | o in inter.objs
    ensures StateOf(inter) == old(StateOf(inter))
  {
    hide *;
    RootKinds(op);
    RootsListed(inter);
    StateParts(inter);
    ReadIs(op, StateOf(inter));
    found, v := false, Plain(0);
    var scope: Obj? := null;
    NoObject();
    if inter.envs != [] {
      scope := inter.envs[0].scopeChain;
      TopEnvironment(inter.envs, if op.LoadHeld? then op.ref else 0);
    }
    ReferenceIs(scope);
    match op {
      case LoadScope =>
        found, v := scope != null, Ref(scope);
      case LoadHeld(k) =>
        if inter.envs != [] && k < |inter.envs[0].refs| {
          var o := inter.envs[0].refs[k];
          ReferenceIs(o);
          found, v := o != null, Ref(o);
        }
      case MakeClosure =>
        found, v := true, Closure(scope);
    }
  }

  lemma RootKinds(op: Op)
    ensures ReadsRoot(op) <==>
      || op.LoadGlobal? || op.LoadModule? || op.LoadException? || op.LoadScope? || op.LoadHeld? || op.MakeClosure?
  {
  }

  lemma NoObject()
    ensures One(null) == {}
  {
  }

  lemma ReadSlotIs(op: Op, s: State)
    requires op.Push? || op.ScopeOf? || op.BindMethod? || op.ReceiverOf?
    ensures op.Push? ==> Read(op, s) == if op.slot < |s.pushed| then Found(s.pushed[op.slot]) else Nothing
    ensures op.ScopeOf? ==> Read(op, s) == if s.Slot(op.slot).Closure? then Link(s.Slot(op.slot).scope) else Nothing
    ensures op.BindMethod? ==>
      Read(op, s) == if s.Operand(op.slot) == null then Nothing else Found(FakeMethod(s.Operand(op.slot)))
    ensures op.ReceiverOf? ==>
      Read(op, s) == if s.Slot(op.slot).FakeMethod? then Link(s.Slot(op.slot).receiver) else Nothing
  {
    hide Link, State.Operand;
  }

  /** A value on the stack, the scope that a closure has captured, or the object that a method value belongs to. */
  method ReadSlot(inter: Interp, op: Op) returns (found: bool, v: CrbValue)
    requires inter.Valid() && (op.Push? || op.ScopeOf? || op.BindMethod? || op.ReceiverOf?)
    ensures Read(op, StateOf(inter)) == if found then Found(v) else Nothing
    ensures found ==> Targets(v) <= set o | o in inter.objs
    ensures StateOf(inter) == old(StateOf(inter))
  {
    hide *;
    StackFits(inter);
    OperandIs(inter, op.slot);
    SlotIs(inter, op.slot);
    ReadSlotIs(op, StateOf(inter));
    found, v := false, Plain(0);
    if op.BindMethod? {
      var o := ObjectAt(inter, op.slot);
      OneListed(inter, o);
      ReferenceIs(o);
      found, v := o != null, FakeMethod(o);
    } else if op.slot < inter.sp {
      var w := ValueAt(inter, op.slot);
      if op.Push? {
        found, v := true, w;
      } else if op.ScopeOf? && w.Closure? {
        ReferenceIs(w.scope);
        found, v := w.scope != null, Ref(w.scope);
      } else if op.ReceiverOf? && w.FakeMethod? {
        ReferenceIs(w.receiver);
        found, v := w.receiver != null, Ref(w.receiver);
      }
    }
  }

  lemma SlotIs(inter: Interp, k: nat)
    requires inter.sp <= |inter.stack|
    ensures k < |StateOf(inter).pushed| ==> StateOf(inter).Slot(k) == StateOf(inter).pushed[k]
  {
    hide LooksOf;
  }

  /** What an object refers to, by what it is. */
  lemma {:induction false} MemberListed(inter: Interp, o: Obj, name: int)
    requires inter.Valid() && o in inter.objs
    ensures o.u.AssocObject? && name in o.u.members ==> Targets(o.u.members[name].value) <= set p | p in inter.objs
    ensures o.u.ScopeChain? ==> One(o.u.frame) + One(o.u.next) <= set p | p in inter.objs
  {
    hide Interp.Valid, Targets, One;
    KidsListed(inter, o);
    if o.u.AssocObject? && name in o.u.members {
      MemberMore(o.u.members, {}, name);
      assert name in o.u.members.Keys;
    }
  }

  /** What is read of an object, by what it is. */
  lemma ReadObjectIs(inter: Interp, op: Op, o: Obj)
    requires ReadsObject(op) && o in inter.objs && o == StateOf(inter).Operand(op.of)
    ensures op.GetElement? ==>
      Read(op, StateOf(inter)) ==
        if o.u.ArrayObject? && 0 <= op.index < o.u.slice.len then Found(LookOf(o).At(op.index)) else Nothing
    ensures op.GetMember? ==>
      Read(op, StateOf(inter)) ==
        if o.u.AssocObject? && op.name in o.u.members then Found(o.u.members[op.name].value) else Nothing
    ensures op.GetFrame? ==> Read(op, StateOf(inter)) == if o.u.ScopeChain? then Link(o.u.frame) else Nothing
    ensures op.GetNext? ==> Read(op, StateOf(inter)) == if o.u.ScopeChain? then Link(o.u.next) else Nothing
  {
    hide State.Operand, Link, Look.At;
  }

  lemma NothingRead(inter: Interp, op: Op)
    requires ReadsObject(op) && StateOf(inter).Operand(op.of) == null
    ensures Read(op, StateOf(inter)) == Nothing
  {
    hide State.Operand;
  }

  lemma ObjectKinds(op: Op)
    ensures ReadsObject(op) <==> op.GetElement? || op.GetMember? || op.GetFrame? || op.GetNext?
  {
  }

  /** What an object holds. */
  method ReadObject(inter: Interp, op: Op) returns (found: bool, v: CrbValue)
    requires inter.Valid() && ReadsObject(op)
    ensures Read(op, StateOf(inter)) == if found then Found(v) else Nothing
    ensures found ==> Targets(v) <= set o | o in inter.objs
    ensures StateOf(inter) == old(StateOf(inter))
  {
    hide *;
    ObjectKinds(op);
    found, v := false, Plain(0);
    var o := ObjectAt(inter, op.of);
    if o == null {
      NothingRead(inter, op);
      return;
    }
    ReadObjectIs(inter, op, o);
    MemberListed(inter, o, if op.GetMember? then op.name else 0);
    match op {
      case GetElement(_, index) =>
        if o.u.ArrayObject? && 0 <= index < o.u.slice.len {
          SoundSlice(inter, o);
          SliceFits(o.u.slice);
          ElementListed(inter, o, index);
          ElementAt(o, index);
          found, v := true, o.u.slice.data.data[o.u.slice.pos + index];
        }
      case GetMember(_, name) =>
        if o.u.AssocObject? && name in o.u.members {
          found, v := true, o.u.members[name].value;
        }
      case GetFrame(_) =>
        if o.u.ScopeChain? {
          ReferenceIs(o.u.frame);
          found, v := o.u.frame != null, Ref(o.u.frame);
        }
      case GetNext(_) =>
        if o.u.ScopeChain? {
          ReferenceIs(o.u.next);
          found, v := o.u.next != null, Ref(o.u.next);
        }
    }
  }

  lemma SliceFits(slice: Slice<CrbValue>)
    requires InBounds(slice)
    ensures slice.pos + slice.len <= slice.data.data.Length
  {
  }

  lemma ElementAt(o: Obj, index: nat)
    requires o.u.ArrayObject? && InBounds(o.u.slice) && index < o.u.slice.len
    ensures LookOf(o).At(index) == o.u.slice.data.data[o.u.slice.pos + index]
  {
  }

  lemma ReadAfter(op: Op, s: State)
    ensures AfterRead(op, s) == if Read(op, s).Nothing? then s else s.(pushed := s.pushed + [Read(op, s).value])
  {
    hide Read;
  }

  lemma ReadKinds(op: Op)
    requires Reads(op)
    ensures ReadsRoot(op) || ReadsObject(op) || op.Push? || op.ScopeOf? || op.BindMethod? || op.ReceiverOf?
  {
  }

  /** Whatever a program reads refers to listed objects only. */
  method StepRead(inter: Interp, op: Op)
    requires inter.Valid() && Reads(op)
    modifies inter`stack, inter`sp
    ensures inter.Valid() && StateOf(inter) == AfterRead(op, old(StateOf(inter)))
    ensures Safe(inter, old(inter.Live()), old(inter.Drift()), old(inter.AtBottom()))
  {
    hide *;
    ghost var s, live, drift, bottom := StateOf(inter), inter.Live(), inter.Drift(), inter.AtBottom();
    SafeNow(inter);
    ReadKinds(op);
    FramedValid(inter);
    ReadAfter(op, s);
    var found, v;
    if op.LoadGlobal? || op.LoadModule? || op.LoadException? {
      found, v := ReadVariable(inter, op);
    } else if ReadsRoot(op) {
      RootKinds(op);
      found, v := ReadEnvironment(inter, op);
    } else if ReadsObject(op) {
      found, v := ReadObject(inter, op);
    } else {
      found, v := ReadSlot(inter, op);
    }
    if found {
      PushLooked(inter, v, live, drift, bottom);
    }
  }

  lemma ValuesAfter(op: Op, s: State)
    ensures op.Pop? ==> RootsAfter(op, s) == if s.pushed == [] then s else s.(pushed := s.pushed[..|s.pushed| - 1])
    ensures op.SetGlobal? ==>
      RootsAfter(op, s) == if op.slot < |s.pushed| then s.(globals := s.globals + [s.pushed[op.slot]]) else s
    ensures op.SetModule? ==>
      RootsAfter(op, s) ==
        if op.modul < |s.modules| && op.slot < |s.pushed|
        then s.(modules := s.modules[op.modul := s.modules[op.modul] + [s.pushed[op.slot]]]) else s
    ensures op.Throw? ==> RootsAfter(op, s) == if op.slot < |s.pushed| then s.(exception := s.pushed[op.slot]) else s
  {
  }

  /** The stack and the other roots, with these looks. */
  lemma WithParts(inter: Interp, looks: map<Obj, Look>)
    ensures var s := StateWith(inter, looks);
      && s.pushed == inter.Pushed() && s.globals == inter.globals && s.modules == inter.modules && s.envs == inter.envs
    ensures looks == LooksOf(inter.objs) ==> StateWith(inter, looks) == StateOf(inter)
    ensures inter.sp <= |inter.stack| ==> |inter.Pushed()| == inter.sp
  {
  }

  /** A value leaves the stack or is copied from it to another root. */
  method StepValues(inter: Interp, op: Op, ghost looks: map<Obj, Look>)
    requires inter.Valid() && (op.Pop? || op.SetGlobal? || op.SetModule? || op.Throw?) && looks == LooksOf(inter.objs)
    modifies inter`sp, inter`globals, inter`modules, inter`exception
    ensures inter.Valid() && StateWith(inter, looks) == RootsAfter(op, old(StateWith(inter, looks)))
    ensures Safe(inter, old(inter.Live()), old(inter.Drift()), old(inter.AtBottom()))
  {
    hide *;
    ghost var live, drift, bottom := inter.Live(), inter.Drift(), inter.AtBottom();
    SafeNow(inter);
    StackFits(inter);
    WithParts(inter, looks);
    ValuesAfter(op, StateWith(inter, looks));
    match op {
      case Pop =>
        if inter.sp > 0 { PopValue(inter, live, drift, bottom, looks); }
      case SetGlobal(k) =>
        if k < inter.sp {
          var v := ValueAt(inter, k);
          AddGlobal(inter, v, live, drift, bottom, looks);
        }
      case SetModule(i, k) =>
        if i < |inter.modules| && k < inter.sp {
          var v := ValueAt(inter, k);
          AddToModule(inter, i, v, live, drift, bottom, looks);
        }
      case Throw(k) =>
        if k < inter.sp {
          var v := ValueAt(inter, k);
          SetException(inter, v, live, drift, bottom, looks);
        }
    }
  }

  lemma EnvsAfter(op: Op, s: State)
    ensures op.EnterFunction? ==> RootsAfter(op, s) == s.(envs := [Env(s.Operand(op.slot), [])] + s.envs)
    ensures op.EnterClosure? ==>
      RootsAfter(op, s) ==
        if s.Slot(op.slot).Closure? then s.(envs := [Env(s.Slot(op.slot).scope, [])] + s.envs) else s
    ensures op.LeaveFunction? ==> RootsAfter(op, s) == if s.envs == [] then s else s.(envs := s.envs[1..])
    ensures op.HoldInNative? ==>
      RootsAfter(op, s) ==
        if s.envs == [] then s
        else s.(envs := [Env(s.envs[0].scopeChain, [s.Operand(op.slot)] + s.envs[0].refs)] + s.envs[1..])
  {
    hide State.Operand, State.Slot;
  }

  /** The chain of environments changes at its top. */
  method StepEnvs(inter: Interp, op: Op, ghost looks: map<Obj, Look>)
    requires inter.Valid() && (op.EnterFunction? || op.EnterClosure? || op.LeaveFunction? || op.HoldInNative?)
    requires looks == LooksOf(inter.objs)
    modifies inter`envs
    ensures inter.Valid() && StateWith(inter, looks) == RootsAfter(op, old(StateWith(inter, looks)))
    ensures Safe(inter, old(inter.Live()), old(inter.Drift()), old(inter.AtBottom()))
  {
    hide *;
    ghost var live, drift, bottom := inter.Live(), inter.Drift(), inter.AtBottom();
    SafeNow(inter);
    WithParts(inter, looks);
    EnvsAfter(op, StateWith(inter, looks));
    match op {
      case EnterFunction(k) =>
        var o := ObjectAt(inter, k);
        OneListed(inter, o);
        EnterEnv(inter, o, live, drift, bottom, looks);
      case EnterClosure(k) =>
        EnterScope(inter, k, live, drift, bottom, looks);
      case LeaveFunction =>
        if inter.envs != [] { LeaveEnv(inter, live, drift, bottom, looks); }
      case HoldInNative(k) =>
        if inter.envs != [] {
          var o := ObjectAt(inter, k);
          OneListed(inter, o);
          AddRef(inter, o, live, drift, bottom, looks);
        }
    }
  }

  /** The scope that a closure has captured becomes that of a new environment. */
  method EnterScope(inter: Interp, k: nat, ghost live: set<Obj>, ghost drift: int, ghost bottom: bool,
                    ghost looks: map<Obj, Look>)
    requires inter.Valid() && looks == LooksOf(inter.objs) && Safe(inter, live, drift, bottom)
    modifies inter`envs
    ensures inter.Valid() && Safe(inter, live, drift, bottom)
    ensures var s := old(StateWith(inter, looks));
      StateWith(inter, looks) == if s.Slot(k).Closure? then s.(envs := [Env(s.Slot(k).scope, [])] + s.envs) else s
  {
    hide *;
    StackFits(inter);
    WithParts(inter, looks);
    OperandIs(inter, k);
    SlotIs(inter, k);
    if k < inter.sp {
      var v := ValueAt(inter, k);
      if v.Closure? {
        ReferenceIs(v.scope);
        EnterEnv(inter, v.scope, live, drift, bottom, looks);
      }
    }
  }

  /** The steps that only move references between roots leave what the objects hold. */
  method RootsLooked(inter: Interp, op: Op)
    requires inter.Valid() && RootOp(op)
    modifies inter`sp, inter`globals, inter`modules, inter`exception, inter`envs
    ensures inter.Valid() && StateOf(inter) == RootsAfter(op, old(StateOf(inter)))
    ensures Safe(inter, old(inter.Live()), old(inter.Drift()), old(inter.AtBottom()))
  {
    hide Interp.Valid, Interp.Live, Interp.Drift, Interp.AtBottom, Safe, RootsAfter;
    ghost var looks := LooksOf(inter.objs);
    if op.Pop? || op.SetGlobal? || op.SetModule? || op.Throw? {
      StepValues(inter, op, looks);
    } else {
      StepEnvs(inter, op, looks);
    }
    forall o | o in inter.objs
      ensures LookOf(o) == looks[o]
    {
    }
    assert LooksOf(inter.objs) == looks;
  }

  method CollectLooked(inter: Interp)
    requires inter.Valid()
    modifies inter`heapSize, inter`header, inter`objs
    modifies (set o | o in inter.objs)`prev, (set o | o in inter.objs)`next, (set o | o in inter.objs)`marked
    modifies Storages(inter.objs, inter.shapes)
    ensures inter.Valid() && inter.objs == Keep(old(inter.objs), old(inter.Live()))
    ensures forall o :: o in inter.objs ==> o in old(inter.objs) && LookOf(o) == old(LookOf(o))
    ensures Safe(inter, old(inter.Live()), old(inter.Drift() + inter.StrandedBytes()), old(inter.AtBottom()))
  {
    hide Interp.Valid, Interp.Live, Interp.StrandedBytes, Interp.Drift, Interp.AtBottom, Safe, Storages, Keep;
    CollectNow(inter);
    forall o | o in old(inter.objs)
      ensures LookOf(o) == old(LookOf(o))
    {
    }
  }

  lemma {:induction false} CollectedNow(inter: Interp, s: State)
    requires inter.objs == Keep(s.objs, s.Live()) && StateWith(inter, s.looks) == s.(objs := inter.objs)
    requires forall o :: o in inter.objs ==> o in s.looks && LookOf(o) == s.looks[o]
    ensures Next(Collect, s, StateOf(inter))
  {
    hide LookOf, Keep, State.Live;
    assert StateOf(inter).looks == LooksOf(inter.objs);
  }

  method StepCollect(inter: Interp)
    requires inter.Valid()
    modifies inter, inter.repr
    ensures inter.Valid() && fresh(inter.repr - old(inter.repr))
    ensures Next(Collect, old(StateOf(inter)), StateOf(inter))
    ensures Safe(inter, old(inter.Live()), old(inter.Drift() + inter.StrandedBytes()), old(inter.AtBottom()))
    ensures old(inter.StrandedBytes()) == inter.size.ofValue * Lost(old(StateOf(inter)), StateOf(inter))
  {
    hide *;
    ghost var s := StateOf(inter);
    StepFrame(inter);
    StateParts(inter);
    FramedValid(inter);
    SameGraph(inter);
    StrandedLost(inter);
    CollectLooked(inter);
    SameRoots(inter, s);
    CollectedNow(inter, s);
    StateObjs(inter);
    LostIs(s, StateOf(inter));
  }

  lemma RootsNext(op: Op, s: State)
    ensures RootOp(op) ==> Next(op, s, RootsAfter(op, s))
    ensures Reads(op) ==> Next(op, s, AfterRead(op, s))
  {
    hide RootsAfter, AfterRead;
  }

  lemma OtherOps(inter: Interp, op: Op)
    ensures FromBottom(op) == !(op.NewSlice? && op.begin != 0)
    ensures !op.NewSlice? && !op.InsertElement? ==> !LooksBehind(op, StateOf(inter))
    ensures op.NewSlice? ==> (LooksBehind(op, StateOf(inter)) <==> PastEnd(op, StateOf(inter)))
    ensures op.NewArray? ==> Loss(inter, op) == inter.CheckLoss()
    ensures op.Collect? ==> Loss(inter, op) == inter.StrandedBytes()
    ensures (op.NewString? || op.NewArray? || op.NewAssoc? || op.NewScope? || op.NewNative?)
         || op.AddMember? || op.Collect? || Storing(op) || Reads(op) || RootOp(op) || op.NewSlice? || op.InsertElement?
  {
    hide Interp.CheckLoss, Interp.StrandedBytes, StateOf;
  }

  lemma PlainOps()
    ensures forall length, isLiteral :: PlainOp(NewString(length, isLiteral), StringObject(length, isLiteral))
    ensures PlainOp(NewAssoc, AssocObject(map[])) && PlainOp(NewScope, ScopeChain(null, null))
    ensures forall pointer :: PlainOp(NewNative(pointer), NativePointer(pointer))
  {
  }

  /** One step. Whatever was reachable before it is still on the list after it, and no reference leads off the list
      unless the step lets the program see a cell behind what an array shows, by opening a slice that goes on there
      or by inserting an element between others. */
  method Step(inter: Interp, op: Op) returns (shown: Obj?)
    requires inter.Valid()
    modifies inter, inter.repr
    ensures inter.Framed() && fresh(inter.repr - old(inter.repr))
    ensures Next(op, old(StateOf(inter)), StateOf(inter))
    ensures inter.Valid() <==> StateOf(inter).Sane()
    ensures !old(LooksBehind(op, StateOf(inter))) ==> inter.Valid()
    ensures Safe(inter, old(inter.Live()), old(inter.Drift() + Loss(inter, op)),
                 old(inter.AtBottom()) && FromBottom(op))
    ensures old(Loss(inter, op)) == inter.size.ofValue * Lost(old(StateOf(inter)), StateOf(inter))
    ensures shown == null ==> inter.Valid()
    ensures shown != null ==> shown in inter.objs && shown.u.ArrayObject?
    ensures shown != null <==>
      || (op.NewSlice? && old(StateOf(inter).Opens(op.of, op.begin, op.end)))
      || (op.InsertElement? && old(StateOf(inter).Inserts(op.of, op.index, op.value)))
    ensures op.NewSlice? && shown != null ==> inter.objs != [] && shown == inter.objs[0] && fresh(shown)
    ensures op.InsertElement? && shown != null ==> shown == old(StateOf(inter).Operand(op.of))
    ensures shown != null ==> (inter.Valid() <==> LookOf(shown).Refs() <= set o | o in inter.objs)
  {
    hide *;
    OtherOps(inter, op);
    ghost var s := StateOf(inter);
    if op.NewSlice? {
      shown := StepSlice(inter, op);
      assert shown != null ==> inter.objs[0] in inter.objs;
    } else if op.InsertElement? {
      NoLoss(inter, op);
      shown := StepInsert(inter, op);
      NextLost(op, s, StateOf(inter));
    } else {
      StepWhole(inter, op);
      FramedValid(inter);
      shown := null;
    }
    ValidSane(inter);
  }

  /** The steps that never leave a reference off the list. */
  method StepWhole(inter: Interp, op: Op)
    requires inter.Valid() && !op.NewSlice? && !op.InsertElement?
    modifies inter, inter.repr
    ensures inter.Valid() && fresh(inter.repr - old(inter.repr))
    ensures Next(op, old(StateOf(inter)), StateOf(inter))
    ensures Safe(inter, old(inter.Live()), old(inter.Drift() + Loss(inter, op)), old(inter.AtBottom()))
    ensures old(Loss(inter, op)) == inter.size.ofValue * Lost(old(StateOf(inter)), StateOf(inter))
  {
    hide *;
    OtherOps(inter, op);
    ghost var s := StateOf(inter);
    if RootOp(op) || Reads(op) {
      NoLoss(inter, op);
      if Reads(op) {
        StepRead(inter, op);
      } else {
        RootsLooked(inter, op);
      }
      RootsNext(op, s);
      NextLost(op, s, StateOf(inter));
    } else if Storing(op) {
      StepStore(inter, op);
      NextLost(op, s, StateOf(inter));
    } else {
      StepAllocate(inter, op);
    }
  }

  method StepStore(inter: Interp, op: Op)
    requires inter.Valid() && Storing(op)
    modifies inter, inter.repr
    ensures inter.Valid() && fresh(inter.repr - old(inter.repr))
    ensures Next(op, old(StateOf(inter)), StateOf(inter))
    ensures old(Loss(inter, op)) == 0
    ensures Safe(inter, old(inter.Live()), old(inter.Drift() + Loss(inter, op)), old(inter.AtBottom()))
  {
    hide *;
    NoLoss(inter, op);
    StoringOp(op);
    if op.SetElement? {
      StepSet(inter, op);
    } else if op.AppendElement? {
      StepAppend(inter, op);
    } else if op.PopElement? {
      StepPopElement(inter, op);
    } else {
      StepScope(inter, op);
    }
  }

  lemma StoringOp(op: Op)
    ensures Storing(op) == (op.SetElement? || op.AppendElement? || op.PopElement? || op.LinkScope?)
  {
  }

  method StepAllocate(inter: Interp, op: Op)
    requires inter.Valid()
    requires (op.NewString? || op.NewArray? || op.NewAssoc? || op.NewScope? || op.NewNative?)
          || op.AddMember? || op.Collect?
    modifies inter, inter.repr
    ensures inter.Valid() && fresh(inter.repr - old(inter.repr))
    ensures Next(op, old(StateOf(inter)), StateOf(inter))
    ensures Safe(inter, old(inter.Live()), old(inter.Drift() + Loss(inter, op)), old(inter.AtBottom()))
    ensures old(Loss(inter, op)) == inter.size.ofValue * Lost(old(StateOf(inter)), StateOf(inter))
  {
    hide *;
    OtherOps(inter, op);
    PlainOps();
    match op {
      case NewString(length, isLiteral) =>
        StepCreate(inter, op, StringObject(length, isLiteral));
      case NewArray(size) =>
        StepArray(inter, size);
      case NewAssoc =>
        StepCreate(inter, op, AssocObject(map[]));
      case NewScope =>
        StepCreate(inter, op, ScopeChain(null, null));
      case NewNative(pointer) =>
        StepCreate(inter, op, NativePointer(pointer));
      case AddMember(_, _, _, _) =>
        StepMember(inter, op);
      case Collect =>
        StepCollect(inter);
    }
  }

  // ---------------------------------------------------------------- runs

  /** Whether an object is on the list. */
  method InList(inter: Interp, x: Obj?) returns (found: bool)
    requires Linked(inter.header, inter.objs)
    ensures found <==> One(x) <= set o | o in inter.objs
  {
    if x == null {
      return true;
    }
    found := false;
    var obj := inter.header;
    ghost var n := 0;
    while obj != null
      invariant n <= |inter.objs| && obj == if n == |inter.objs| then null else inter.objs[n]
      invariant found <==> x in inter.objs[..n]
      decreases |inter.objs| - n
    {
      found := found || obj == x;
      obj, n := obj.next, n + 1;
    }
    assert inter.objs[..n] == inter.objs;
  }

  method ValueListed(inter: Interp, v: CrbValue) returns (yes: bool)
    requires Linked(inter.header, inter.objs)
    ensures yes <==> Targets(v) <= set o | o in inter.objs
  {
    hide Linked;
    match v {
      case Plain(_) => yes := true;
      case Ref(o) => yes := InList(inter, o);
      case Closure(o) => yes := InList(inter, o);
      case FakeMethod(o) => yes := InList(inter, o);
    }
  }

  /** Whether everything that an array shows is on the list. */
  method AllListed(inter: Interp, slice: Slice<CrbValue>) returns (yes: bool)
    requires Linked(inter.header, inter.objs) && InBounds(slice)
    ensures yes <==> AllTargets(Cells(slice)) <= set o | o in inter.objs
  {
    ghost var view := Cells(slice);
    yes := true;
    assert AllTargets(view[..0]) == {};
    for i := 0 to slice.len
      invariant yes <==> AllTargets(view[..i]) <= set o | o in inter.objs
    {
      OneMore(view, i);
      hide AllTargets, Linked, Targets;
      var value := slice.data.data[slice.pos + i];
      assert value == view[i];
      var one := ValueListed(inter, value);
      yes := yes && one;
    }
    assert view[..slice.len] == view;
  }

  lemma {:induction false} ShownParts(inter: Interp, x: Obj)
    requires inter.Framed() && x in inter.objs && x.u.ArrayObject?
    ensures Linked(inter.header, inter.objs) && InBounds(x.u.slice)
    ensures LookOf(x).Refs() == AllTargets(Cells(x.u.slice))
  {
    hide Linked, SlicesApart, Counted, InRepr, AllTargets, ModuleTargets, EnvTargets, Targets;
    LookKids(x);
    assert x in inter.Graph();
  }

  /** Looking is not touching. */
  method ListedLooked(inter: Interp, slice: Slice<CrbValue>) returns (yes: bool)
    requires Linked(inter.header, inter.objs) && InBounds(slice)
    ensures yes <==> AllTargets(Cells(slice)) <= set o | o in inter.objs
    ensures StateOf(inter) == old(StateOf(inter))
  {
    hide Linked, InBounds, AllTargets, Cells;
    ghost var looks := LooksOf(inter.objs);
    yes := AllListed(inter, slice);
    forall o | o in inter.objs
      ensures LookOf(o) == looks[o]
    {
    }
    assert LooksOf(inter.objs) == looks;
  }

  /** Whether the heap is valid after an array has been opened. */
  method StillValid(inter: Interp, x: Obj) returns (fine: bool)
    requires inter.Framed() && x in inter.objs && x.u.ArrayObject?
    requires inter.Valid() <==> LookOf(x).Refs() <= set o | o in inter.objs
    ensures fine <==> inter.Valid()
    ensures inter.Framed() && StateOf(inter) == old(StateOf(inter))
  {
    hide *;
    ShownParts(inter, x);
    fine := ListedLooked(inter, x.u.slice);
  }

  /** The states of a run so far, and what is known of the steps taken. */
  ghost predicate RunSoFar(ops: seq<Op>, states: seq<State>) {
    && 1 <= |states| <= |ops| + 1 && Chain(ops[..|states| - 1], states)
    && (forall i :: 0 <= i < |states| - 1 ==> states[i].Sane())
    && (!states[|states| - 1].Sane() ==> |states| > 1 && LooksBehind(ops[|states| - 2], states[|states| - 2]))
  }

  lemma {:induction false} RunMore(ops: seq<Op>, states: seq<State>, s': State)
    requires RunSoFar(ops, states) && |states| <= |ops| && states[|states| - 1].Sane()
    requires Next(ops[|states| - 1], states[|states| - 1], s')
    requires !LooksBehind(ops[|states| - 1], states[|states| - 1]) ==> s'.Sane()
    ensures RunSoFar(ops, states + [s'])
  {
    hide Next, LooksBehind, State.Sane;
    var n, more := |states|, states + [s'];
    assert forall i :: 0 <= i < n ==> more[i] == states[i];
    forall i | 0 <= i < n
      ensures Next(ops[..n][i], more[i], more[i + 1])
    {
      if i < n - 1 {
        assert ops[..n - 1][i] == ops[i];
      }
    }
  }

  lemma RunStart(ops: seq<Op>, s: State)
    requires s.Sane()
    ensures RunSoFar(ops, [s]) && AllLost([s]) == 0
  {
  }

  /** One step more, and what it loses. */
  lemma {:induction false} LostMore(states: seq<State>, s': State, drift: int, was: int, unit: nat)
    requires states != [] && drift == was + unit * AllLost(states)
    ensures drift + unit * Lost(states[|states| - 1], s') == was + unit * AllLost(states + [s'])
  {
    hide Lost;
    var more := states + [s'];
    assert more[..|states|] == states;
    Distribute(unit, AllLost(states), Lost(states[|states| - 1], s'));
  }

  /** A run. Each step does what `Next` says; the heap stays valid, that is, every reference that the program
      can follow leads to an object that has not been freed, unless a step lets the program see a cell behind what an
      array shows and there is a reference in it to an object that has been freed, and there the run ends. The counter
      is off by exactly what its collections have lost, and if no slice was opened above the bottom of its source it
      is exactly as right as it was. */
  method Run(inter: Interp, ops: seq<Op>) returns (ghost states: seq<State>)
    requires inter.Valid()
    modifies inter, inter.repr
    ensures inter.Framed() && fresh(inter.repr - old(inter.repr))
    ensures RunSoFar(ops, states) && states[0] == old(StateOf(inter)) && states[|states| - 1] == StateOf(inter)
    ensures inter.Valid() <==> states[|states| - 1].Sane()
    ensures inter.Valid() ==> |states| == |ops| + 1
    ensures inter.Drift() == old(inter.Drift()) + inter.size.ofValue * AllLost(states)
    ensures old(inter.AtBottom()) && (forall op :: op in ops ==> FromBottom(op)) ==>
      inter.Drift() == old(inter.Drift()) && inter.AtBottom()
  {
    hide *;
    ghost var good := true;
    FramedValid(inter);
    ValidSane(inter);
    states := [StateOf(inter)];
    RunStart(ops, states[0]);
    for i := 0 to |ops|
      invariant inter.Valid() && inter.Framed() && fresh(inter.repr - old(inter.repr))
      invariant RunSoFar(ops, states) && |states| == i + 1
      invariant states[0] == old(StateOf(inter)) && states[i] == StateOf(inter) && states[i].Sane()
      invariant inter.Drift() == old(inter.Drift()) + inter.size.ofValue * AllLost(states)
      invariant (forall op :: op in ops[..i] ==> FromBottom(op)) ==> good
      invariant old(inter.AtBottom()) && good ==> inter.Drift() == old(inter.Drift()) && inter.AtBottom()
    {
      ghost var live, drift, bottom := inter.Live(), inter.Drift() + Loss(inter, ops[i]), inter.AtBottom();
      ghost var now := inter.Drift();
      BottomLoss(inter, ops[i]);
      var shown := Step(inter, ops[i]);
      SafeSplit(inter, live, drift, bottom && FromBottom(ops[i]));
      good := good && FromBottom(ops[i]);
      assert ops[i] in ops[..i + 1] && forall op :: op in ops[..i] ==> op in ops[..i + 1];
      RunMore(ops, states, StateOf(inter));
      LostMore(states, StateOf(inter), now, old(inter.Drift()), inter.size.ofValue);
      states := states + [StateOf(inter)];
      if shown != null {
        var fine := StillValid(inter, shown);
        if !fine {
          assert forall op :: op in ops[..i + 1] ==> op in ops;
          return;
        }
      }
    }
    assert ops[..|ops|] == ops;
  }
}
