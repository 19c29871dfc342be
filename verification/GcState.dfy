/** The steps of a program on the heap, as a relation between what can be read before and after. */
module GcState {
  import opened GcGraph
  import opened GcMark
  import opened GcAccount
  import opened GcHeap
  import opened GcLooks
  import opened GcMutator
  import opened Slices

  /** One step of the program. Operands are slots of the value stack, counted from its bottom;
      what a step creates goes on top. */
  datatype Op = NewString(length: nat, isLiteral: bool)
              | NewArray(size: nat)
              | NewSlice(of: nat, begin: int, end: int)
              | NewAssoc
              | NewScope
              | NewNative(pointer: int)
              | Push(slot: nat)
              | Pop
              | SetElement(of: nat, index: int, value: nat)
              | AppendElement(of: nat, value: nat)
              | InsertElement(of: nat, index: int, value: nat)
              | PopElement(of: nat, index: int)
              | AddMember(of: nat, name: int, value: nat, isFinal: bool)
              | LinkScope(of: nat, frame: nat, next: nat)
              | LoadGlobal(variable: nat)
              | LoadModule(modul: nat, variable: nat)
              | LoadException
              | LoadScope
              | LoadHeld(ref: nat)
              | MakeClosure
              | ScopeOf(slot: nat)
              | BindMethod(slot: nat)
              | ReceiverOf(slot: nat)
              | GetElement(of: nat, index: int)
              | GetMember(of: nat, name: int)
              | GetFrame(of: nat)
              | GetNext(of: nat)
              | SetGlobal(slot: nat)
              | SetModule(modul: nat, slot: nat)
              | Throw(slot: nat)
              | EnterFunction(slot: nat)
              | EnterClosure(slot: nat)
              | LeaveFunction
              | HoldInNative(slot: nat)
              | Collect

  /** What a program can get at: the roots, the objects on the list and what they hold. */
  datatype State = State(pushed: seq<CrbValue>, globals: seq<CrbValue>, modules: seq<seq<CrbValue>>, envs: seq<Env>,
                         exception: CrbValue, objs: seq<Obj>, looks: map<Obj, Look>)
  {
    ghost function Slot(k: nat): CrbValue {
      if k < |pushed| then pushed[k] else Plain(0)
    }

    /** The object in a slot, if there is one. */
    ghost function Operand(k: nat): Obj? {
      if Slot(k).Ref? then Slot(k).target else null
    }

    ghost predicate IsArray(o: Obj?) {
      o != null && o in looks && looks[o].u.ArrayObject?
    }

    ghost function Graph(): map<Obj, set<Obj>> {
      map o | o in objs && o in looks :: looks[o].Refs()
    }

    ghost function Roots(): set<Obj> {
      AllTargets(globals) + ModuleTargets(modules) + EnvTargets(envs) + AllTargets(pushed) + Targets(exception)
    }

    ghost function Live(): set<Obj> {
      set o | o in objs && Reached(Graph(), Roots(), o)
    }

    /** No object on the list refers to one that is not. */
    ghost predicate Sane() {
      forall o :: o in objs && o in looks ==> looks[o].Refs() <= set p | p in objs
    }

    /** The slice expression is accepted: its end may lie anywhere in the storage, seen from its bottom. */
    ghost predicate Opens(k: nat, begin: int, end: int) {
      && IsArray(Operand(k)) && 0 <= begin <= end
      && looks[Operand(k)].pos + looks[Operand(k)].pos + end <= |looks[Operand(k)].cells|
    }

    /** What the array in a slot shows ends before its storage does. */
    ghost predicate HasRoom(k: nat) {
      IsArray(Operand(k)) && looks[Operand(k)].pos + looks[Operand(k)].len < |looks[Operand(k)].cells|
    }

    /** There are an array and a value, and room for it or more storage to be had. */
    ghost predicate Extends(k: nat, j: nat) {
      IsArray(Operand(k)) && j < |pushed| && (HasRoom(k) || |looks[Operand(k)].cells| < LONG_MAX)
    }

    ghost predicate Inserts(k: nat, index: int, j: nat) {
      Extends(k, j) && 0 <= index <= looks[Operand(k)].len
    }

    /** What the counter has to know of the objects that are arrays. */
    ghost function Shapes(): map<Obj, Shape> {
      map o | o in looks :: Shape(0, null, looks[o].owner, looks[o].pos)
    }
  }

  /** The step opens no slice above the bottom of its source. */
  predicate FromBottom(op: Op) {
    op.NewSlice? ==> op.begin == 0
  }

  /** The step opens a slice that goes on behind what its source shows. */
  ghost predicate PastEnd(op: Op, s: State) {
    op.NewSlice? && s.Opens(op.of, op.begin, op.end) && op.end > s.looks[s.Operand(op.of)].len
  }

  /** The step inserts a value between the elements of an array, and makes the cell behind them one of them. */
  ghost predicate InsertsBetween(op: Op, s: State) {
    && op.InsertElement? && s.Inserts(op.of, op.index, op.value)
    && 0 < op.index < s.looks[s.Operand(op.of)].len
  }

  /** The step lets the program see a cell behind what an array shows. */
  ghost predicate LooksBehind(op: Op, s: State) {
    PastEnd(op, s) || InsertsBetween(op, s)
  }

  /** The cells that stay in the counter although their storage goes, when only the objects in `rest` stay. */
  ghost function LostTo(s: State, rest: seq<Obj>): nat {
    Stranded(s.objs, s.Shapes(), set o | o in rest, |s.objs|)
  }

  /** What the counter loses from one state to the next, in cells. */
  ghost function Lost(s: State, s': State): nat {
    LostTo(s, s'.objs)
  }

  /** And over the states of a run. */
  ghost function AllLost(states: seq<State>): nat {
    if |states| <= 1 then 0
    else AllLost(states[..|states| - 1]) + Lost(states[|states| - 2], states[|states| - 1])
  }

  /** Nothing is done to the objects, but a collection may have taken some away. */
  ghost predicate Trimmed(s: State, rest: seq<Obj>, looks: map<Obj, Look>) {
    && (rest == s.objs || rest == Keep(s.objs, s.Live()))
    && forall o :: o in rest ==> o in s.looks && o in looks && looks[o] == s.looks[o]
  }

  /** There is one more object, and a reference to it is on top of the stack. */
  ghost predicate Made(s: State, s': State) {
    && s'.objs != [] && s'.objs[0] !in s.objs && s'.objs[0] in s'.looks
    && Trimmed(s, s'.objs[1..], s'.looks)
    && s' == s.(pushed := s.pushed + [Ref(s'.objs[0])], objs := s'.objs, looks := s'.looks)
  }

  ghost predicate MadePlain(s: State, s': State, u: Payload) {
    Made(s, s') && s'.looks[s'.objs[0]] == Look(u, null, 0, 0, [])
  }

  /** An array of nulls on storage of its own. */
  ghost predicate MadeArray(s: State, s': State, size: nat) {
    && Made(s, s')
    && var l := s'.looks[s'.objs[0]];
       && l.u.ArrayObject? && l.pos == 0 && l.len == size && l.cells == Nulls(size)
       && forall o :: o in s.looks ==> s.looks[o].Storage() != l.Storage()
  }

  /** An array that shows a stretch of the storage of another. */
  ghost predicate MadeSlice(s: State, s': State, k: nat, begin: int, end: int) {
    && Made(s, s') && s.Opens(k, begin, end)
    && var l, x := s'.looks[s'.objs[0]], s.looks[s.Operand(k)];
       l.u.ArrayObject? && l == Look(l.u, x.owner, x.pos + begin, end - begin, x.cells)
  }

  ghost predicate Appended(s: State, s': State, x: Obj, value: CrbValue) {
    s' == s.(looks := s'.looks) && AppendLooks(s.looks, s'.looks, x, value)
  }

  ghost predicate InsertedIn(s: State, s': State, x: Obj, index: nat, value: CrbValue) {
    s' == s.(looks := s'.looks) && InsertLooks(s.looks, s'.looks, x, index, value)
  }

  ghost predicate MemberAdded(s: State, s': State, x: Obj, name: int, m: Member) {
    && x in s.looks && s.looks[x].u.AssocObject? && s' == s.(objs := s'.objs, looks := s'.looks)
    && Trimmed(s, s'.objs, s'.looks[x := s.looks[x]])
    && x in s'.objs && x in s'.looks
    && s'.looks[x] == Look(AssocObject(s.looks[x].u.members[name := m]), null, 0, 0, [])
  }

  datatype Found = Nothing | Found(value: CrbValue)

  ghost function Link(o: Obj?): Found {
    if o == null then Nothing else Found(Ref(o))
  }

  /** The step only reads something and leaves it on top of the stack. */
  predicate Reads(op: Op) {
    op.Push? || ReadsRoot(op) || op.ScopeOf? || op.BindMethod? || op.ReceiverOf? || ReadsObject(op)
  }

  predicate ReadsRoot(op: Op) {
    op.LoadGlobal? || op.LoadModule? || op.LoadException? || op.LoadScope? || op.LoadHeld? || op.MakeClosure?
  }

  predicate ReadsObject(op: Op) {
    op.GetElement? || op.GetMember? || op.GetFrame? || op.GetNext?
  }

  /** What it reads: a variable, the current exception, what belongs to the environment on top, the parts of a closure
      or of a method value, or what an object holds. */
  ghost function Read(op: Op, s: State): Found {
    match op
    case Push(k) => if k < |s.pushed| then Found(s.pushed[k]) else Nothing
    case LoadGlobal(k) => if k < |s.globals| then Found(s.globals[k]) else Nothing
    case LoadModule(i, k) => if i < |s.modules| && k < |s.modules[i]| then Found(s.modules[i][k]) else Nothing
    case LoadException => Found(s.exception)
    case LoadScope => if s.envs == [] then Nothing else Link(s.envs[0].scopeChain)
    case LoadHeld(k) => if s.envs == [] || k >= |s.envs[0].refs| then Nothing else Link(s.envs[0].refs[k])
    case MakeClosure => Found(Closure(if s.envs == [] then null else s.envs[0].scopeChain))
    case ScopeOf(k) => if s.Slot(k).Closure? then Link(s.Slot(k).scope) else Nothing
    case BindMethod(k) => if s.Operand(k) == null then Nothing else Found(FakeMethod(s.Operand(k)))
    case ReceiverOf(k) => if s.Slot(k).FakeMethod? then Link(s.Slot(k).receiver) else Nothing
    case GetElement(k, _) => HeldIn(op, s, s.Operand(k))
    case GetMember(k, _) => HeldIn(op, s, s.Operand(k))
    case GetFrame(k) => HeldIn(op, s, s.Operand(k))
    case GetNext(k) => HeldIn(op, s, s.Operand(k))
    case _ => Nothing
  }

  ghost function HeldIn(op: Op, s: State, o: Obj?): Found {
    if o != null && o in s.looks then Held(op, s.looks[o]) else Nothing
  }

  ghost function Held(op: Op, l: Look): Found {
    match op
    case GetElement(_, index) => if l.u.ArrayObject? && 0 <= index < l.len then Found(l.At(index)) else Nothing
    case GetMember(_, name) =>
      if l.u.AssocObject? && name in l.u.members then Found(l.u.members[name].value) else Nothing
    case GetFrame(_) => if l.u.ScopeChain? then Link(l.u.frame) else Nothing
    case GetNext(_) => if l.u.ScopeChain? then Link(l.u.next) else Nothing
    case _ => Nothing
  }

  ghost function AfterRead(op: Op, s: State): State {
    if Read(op, s).Nothing? then s else s.(pushed := s.pushed + [Read(op, s).value])
  }

  /** What the steps do that only move references between roots. */
  ghost function RootsAfter(op: Op, s: State): State {
    match op
    case Pop => if s.pushed != [] then s.(pushed := s.pushed[..|s.pushed| - 1]) else s
    case SetGlobal(k) => if k < |s.pushed| then s.(globals := s.globals + [s.pushed[k]]) else s
    case SetModule(i, k) =>
      if i < |s.modules| && k < |s.pushed| then s.(modules := s.modules[i := s.modules[i] + [s.pushed[k]]]) else s
    case Throw(k) => if k < |s.pushed| then s.(exception := s.pushed[k]) else s
    case EnterFunction(k) => s.(envs := [Env(s.Operand(k), [])] + s.envs)
    case EnterClosure(k) => if s.Slot(k).Closure? then s.(envs := [Env(s.Slot(k).scope, [])] + s.envs) else s
    case LeaveFunction => if s.envs != [] then s.(envs := s.envs[1..]) else s
    case HoldInNative(k) =>
      if s.envs != [] then s.(envs := [Env(s.envs[0].scopeChain, [s.Operand(k)] + s.envs[0].refs)] + s.envs[1..]) else s
    case _ => s
  }

  predicate RootOp(op: Op) {
    || op.Pop? || op.SetGlobal? || op.SetModule? || op.Throw?
    || op.EnterFunction? || op.EnterClosure? || op.LeaveFunction? || op.HoldInNative?
  }

  /** What a step does; one whose operands do not fit does nothing. */
  ghost predicate Next(op: Op, s: State, s': State) {
    if Reads(op) then s' == AfterRead(op, s)
    else if RootOp(op) then s' == RootsAfter(op, s)
    else HeapNext(op, s, s')
  }

  /** What the steps do that make objects, write to them or collect them. */
  ghost predicate HeapNext(op: Op, s: State, s': State) {
    match op
    case NewString(length, isLiteral) => MadePlain(s, s', StringObject(length, isLiteral))
    case NewArray(size) => MadeArray(s, s', size)
    case NewSlice(k, begin, end) => if s.Opens(k, begin, end) then MadeSlice(s, s', k, begin, end) else s' == s
    case NewAssoc => MadePlain(s, s', AssocObject(map[]))
    case NewScope => MadePlain(s, s', ScopeChain(null, null))
    case NewNative(pointer) => MadePlain(s, s', NativePointer(pointer))
    case SetElement(k, index, j) =>
      var x := s.Operand(k);
      s' == if s.IsArray(x) && 0 <= index < s.looks[x].len && j < |s.pushed|
            then s.(looks := SetLooks(s.looks, x, index, s.pushed[j])) else s
    case AppendElement(k, j) =>
      if s.Extends(k, j) then Appended(s, s', s.Operand(k), s.pushed[j]) else s' == s
    case InsertElement(k, index, j) =>
      if s.Inserts(k, index, j) then InsertedIn(s, s', s.Operand(k), index, s.pushed[j]) else s' == s
    case PopElement(k, index) =>
      var x := s.Operand(k);
      s' == if s.IsArray(x) && 0 <= index < s.looks[x].len
            then s.(looks := PopLooks(s.looks, x, index), pushed := s.pushed + [s.looks[x].At(index)]) else s
    case AddMember(k, name, j, isFinal) =>
      var x := s.Operand(k);
      if x != null && x in s.looks && s.looks[x].u.AssocObject? && j < |s.pushed|
      then MemberAdded(s, s', x, name, Member(s.pushed[j], isFinal)) else s' == s
    case LinkScope(k, frame, next) =>
      var x := s.Operand(k);
      s' == if x != null && x in s.looks && s.looks[x].u.ScopeChain?
            then s.(looks := s.looks[x := Look(ScopeChain(s.Operand(frame), s.Operand(next)), null, 0, 0, [])]) else s
    case Collect => s' == s.(objs := Keep(s.objs, s.Live()), looks := s'.looks) && Trimmed(s, s'.objs, s'.looks)
    case _ => s' == s
  }

  /** The states of a run, one more than there are steps. */
  ghost predicate Chain(ops: seq<Op>, states: seq<State>) {
    |states| == |ops| + 1 && forall i :: 0 <= i < |ops| ==> Next(ops[i], states[i], states[i + 1])
  }

  // ---------------------------------------------------------------- the state of an interpreter

  /** The roots and the list as they are, with these looks of the objects. */
  ghost function StateWith(inter: Interp, looks: map<Obj, Look>): State
    reads inter`stack, inter`sp, inter`globals, inter`modules, inter`envs, inter`exception, inter`objs
  {
    State(inter.Pushed(), inter.globals, inter.modules, inter.envs, inter.exception, inter.objs, looks)
  }

  ghost function StateOf(inter: Interp): State
    reads inter`stack, inter`sp, inter`globals, inter`modules, inter`envs, inter`exception, inter`objs
    reads (set o | o in inter.objs)`u, set o, x | o in inter.objs && x in Parts(o.u) :: x
  {
    StateWith(inter, LooksOf(inter.objs))
  }

  /** The graph that the collector works on is the one that can be read off the objects. */
  lemma {:induction false} SameGraph(inter: Interp)
    requires inter.Framed()
    ensures StateOf(inter).Graph() == inter.Graph() && StateOf(inter).Roots() == inter.Roots()
    ensures StateOf(inter).Live() == inter.Live()
  {
    hide Linked, SlicesApart, Counted, Recorded, InRepr, AllTargets, ModuleTargets, EnvTargets, Targets, Kids;
    hide Look.Refs, LookOf;
    var g, h := inter.Graph(), StateOf(inter).Graph();
    assert Spells(g);
    forall o | o in inter.objs
      ensures h[o] == g[o]
    {
      assert o in g;
      LookKids(o);
    }
    assert h == g;
  }

  /** A framed heap is valid exactly if its state is sane. */
  lemma {:induction false} ValidSane(inter: Interp)
    requires inter.Framed()
    ensures inter.Valid() <==> StateOf(inter).Sane()
  {
    hide Linked, SlicesApart, Intact, AllTargets, ModuleTargets, EnvTargets, Targets, Look.Refs, LookOf;
    SameGraph(inter);
    var g, s := inter.Graph(), StateOf(inter);
    assert forall o :: o in s.objs <==> o in g;
    assert forall o :: o in g ==> g[o] == s.looks[o].Refs();
  }

  // ---------------------------------------------------------------- what the counter loses

  lemma {:induction false} SameStranded(s: seq<Obj>, sh: map<Obj, Shape>, sh': map<Obj, Shape>, live: set<Obj>,
                                        live': set<Obj>, n: nat)
    requires n <= |s|
    requires forall o :: o in s ==> Of(sh, o).storage == Of(sh', o).storage && Of(sh, o).pos == Of(sh', o).pos
    requires forall o :: o in s ==> (o in live <==> o in live')
    ensures Stranded(s, sh, live, n) == Stranded(s, sh', live', n)
  {
    if n > 0 {
      SameStranded(s, sh, sh', live, live', n - 1);
      assert s[n - 1] in s;
      assert Careless(s, sh, live, n - 1) <==> Careless(s, sh', live', n - 1);
    }
  }

  /** What stays beside the objects there were makes no difference. */
  lemma {:induction false} JoinedLost(s: State, rest: seq<Obj>, objs: seq<Obj>)
    requires forall o :: o in s.objs ==> (o in rest <==> o in objs)
    ensures LostTo(s, objs) == LostTo(s, rest)
  {
    hide Stranded;
    SameStranded(s.objs, s.Shapes(), s.Shapes(), set o | o in rest, set o | o in objs, |s.objs|);
  }

  lemma {:induction false} NothingLost(s: State, rest: seq<Obj>)
    requires forall o :: o in s.objs ==> o in rest
    ensures LostTo(s, rest) == 0
  {
    NoneStranded(s.objs, s.Shapes(), set o | o in rest, |s.objs|);
  }

  /** The shapes that the counter works with are those that can be read off the objects. */
  lemma {:induction false} SameShaped(inter: Interp)
    requires inter.Framed()
    ensures forall o :: o in inter.objs ==>
      && Of(inter.shapes, o).storage == Of(StateOf(inter).Shapes(), o).storage
      && Of(inter.shapes, o).pos == Of(StateOf(inter).Shapes(), o).pos
  {
    hide Linked, InRepr, Counted, SlicesApart, Spells;
    assert Recorded(inter.objs, inter.shapes, inter.size);
  }

  /** What a collection loses can be read off the objects and what is left of them. */
  lemma {:induction false} StrandedLost(inter: Interp)
    requires inter.Framed()
    ensures inter.StrandedBytes() == inter.size.ofValue * LostTo(StateOf(inter), Keep(inter.objs, inter.Live()))
  {
    hide Interp.Framed, Interp.Live, Keep, State.Shapes, Stranded, Of;
    var all, rest := inter.objs, Keep(inter.objs, inter.Live());
    SameShaped(inter);
    SurvivorsOnly(all, inter.Live());
    SameStranded(all, inter.shapes, StateOf(inter).Shapes(), inter.Live(), set o | o in rest, |all|);
  }

  lemma {:induction false} CheckedLost(inter: Interp)
    requires inter.Framed()
    ensures inter.CheckLoss() == inter.size.ofValue * LostTo(StateOf(inter), inter.Checked())
  {
    hide *;
    CheckSplit(inter);
    StrandedLost(inter);
    if inter.heapSize <= inter.threshold {
      StateObjs(inter);
      NothingLost(StateOf(inter), inter.objs);
    }
  }

  lemma StateObjs(inter: Interp)
    ensures StateOf(inter).objs == inter.objs
  {
  }
}
