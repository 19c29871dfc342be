/** What a program does to the heap: allocation, stores, and the runs made of them. */
module GcMutator {
  import opened GcGraph
  import opened GcMark
  import opened GcAccount
  import opened GcHeap
  import opened GcLooks
  import opened Slices

  /** The objects that were live are still there, the counter is off by `drift`, and all arrays
      start at the bottom if they did before. */
  ghost predicate Safe(inter: Interp, live: set<Obj>, drift: int, bottom: bool)
    reads inter`heapSize, inter`objs, inter`shapes
  {
    && (forall o :: o in live ==> o in inter.objs)
    && inter.Drift() == drift
    && (bottom ==> inter.AtBottom())
  }

  lemma {:induction false} BeforeCollection(inter: Interp)
    ensures inter.AtBottom() ==> inter.StrandedBytes() == 0
    ensures forall o :: o in inter.Live() ==> o in inter.objs && o in Keep(inter.objs, inter.Live())
    ensures Safe(inter, inter.Live(), inter.Drift(), inter.AtBottom())
  {
    SurvivorsOnly(inter.objs, inter.Live());
    NoneStranded(inter.objs, inter.shapes, inter.Live(), |inter.objs|);
  }

  /** What `check_gc` does, by the test it makes. */
  lemma CheckSplit(inter: Interp)
    ensures inter.Checked() == if inter.heapSize > inter.threshold then Keep(inter.objs, inter.Live()) else inter.objs
    ensures inter.CheckLoss() == if inter.heapSize > inter.threshold then inter.StrandedBytes() else 0
  {
  }

  lemma {:induction false} AfterCollection(inter: Interp, was: seq<Obj>, live: set<Obj>, drift: int, bottom: bool)
    requires inter.objs == Keep(was, live) && (forall o :: o in live ==> o in Keep(was, live))
    requires bottom ==> forall o :: o in was ==> Of(inter.shapes, o).pos == 0
    requires inter.Drift() == drift
    ensures Safe(inter, live, drift, bottom)
    ensures forall o :: o in inter.objs ==> o in was
  {
    SurvivorsOnly(was, live);
    forall o | o in inter.objs
      ensures o in was
    {
      KeepIn(was, live, o);
    }
  }

  /** A collection; what it adds to the drift is nothing when all arrays start at the bottom. */
  method CollectNow(inter: Interp)
    requires inter.Valid()
    modifies inter`heapSize, inter`header, inter`objs
    modifies (set o | o in inter.objs)`prev, (set o | o in inter.objs)`next, (set o | o in inter.objs)`marked
    modifies Storages(inter.objs, inter.shapes)
    ensures forall o :: o in inter.objs ==> o in old(inter.objs)
    ensures inter.Valid() && inter.objs == Keep(old(inter.objs), old(inter.Live()))
    ensures Safe(inter, old(inter.Live()), old(inter.Drift() + inter.StrandedBytes()), old(inter.AtBottom()))
  {
    hide *;
    ghost var was, live, bottom := inter.objs, inter.Live(), inter.AtBottom();
    ghost var drift := inter.Drift() + inter.StrandedBytes();
    BeforeCollection(inter);
    DriftIs(inter);
    ghost var lost := inter.Collect();
    AfterCollection(inter, was, live, drift, bottom);
  }

  /** `check_gc` */
  method CheckGc(inter: Interp)
    requires inter.Valid()
    modifies inter`heapSize, inter`threshold, inter`header, inter`objs
    modifies (set o | o in inter.objs)`prev, (set o | o in inter.objs)`next, (set o | o in inter.objs)`marked
    modifies Storages(inter.objs, inter.shapes)
    ensures inter.Valid() && forall o :: o in inter.objs ==> o in old(inter.objs)
    ensures inter.objs == old(inter.Checked())
    ensures inter.threshold ==
      if old(inter.heapSize > inter.threshold) then inter.heapSize + HEAP_THRESHOLD_SIZE else old(inter.threshold)
    ensures Safe(inter, old(inter.Live()), old(inter.Drift() + inter.CheckLoss()), old(inter.AtBottom()))
  {
    hide *;
    BeforeCollection(inter);
    CheckSplit(inter);
    ghost var live, drift, bottom := inter.Live(), inter.Drift() + inter.CheckLoss(), inter.AtBottom();
    if inter.heapSize > inter.threshold {
      CollectNow(inter);
      Raise(inter, live, drift, bottom);
    }
  }

  /** The threshold after a collection; nothing else depends on it. */
  method Raise(inter: Interp, ghost live: set<Obj>, ghost drift: int, ghost bottom: bool)
    requires inter.Valid() && Safe(inter, live, drift, bottom)
    modifies inter`threshold
    ensures inter.Valid() && inter.threshold == inter.heapSize + HEAP_THRESHOLD_SIZE
    ensures Safe(inter, live, drift, bottom)
  {
    hide Intact, Closed, SlicesApart, Bytes, AllTargets, ModuleTargets, EnvTargets, Targets;
    inter.threshold := inter.heapSize + HEAP_THRESHOLD_SIZE;
  }

  // ---------------------------------------------------------------- allocation

  /** A payload that is about to join the heap: its array, if it has one, is already counted by
      the storage. */
  ghost predicate Joins(u: Payload, s: seq<Obj>, sh: map<Obj, Shape>)
    reads Parts(u), OwnStorage(u)
  {
    && Sound(u)
    && (u.ArrayObject? ==>
         && u.slice.data.ref == Owners(s, sh, u.slice.data) + 1
         && forall o :: o in s ==> Of(sh, o).slice != u.slice)
  }

  /** The reference counts, with that array already in them. */
  ghost predicate CountedWith(u: Payload, s: seq<Obj>, sh: map<Obj, Shape>)
    reads Storages(s, sh), if u.ArrayObject? then {u.slice} else {}
  {
    forall a :: a in Storages(s, sh) ==>
      a.ref == Owners(s, sh, a) + if u.ArrayObject? && u.slice.data == a then 1 else 0
  }

  /** What each object of the list has to do with the ghost state. */
  ghost predicate Told(o: Obj, g: map<Obj, set<Obj>>, sh: map<Obj, Shape>, size: Sizes)
    reads o`u, Parts(o.u)
  {
    Sound(o.u) && o in g && g[o] == Kids(o.u) && Of(sh, o) == ShapeOf(o.u, size)
  }

  /** A new object in front of the list. */
  method LinkObject(inter: Interp, u: Payload) returns (obj: Obj)
    requires Linked(inter.header, inter.objs)
    modifies inter`heapSize, inter`header, (set o | o in inter.objs)`prev
    ensures fresh(obj) && obj.u == u && Linked(inter.header, [obj] + inter.objs)
    ensures inter.heapSize == old(inter.heapSize) + inter.size.ofObject
  {
    obj := new Obj(u, inter.header);
    inter.heapSize := inter.heapSize + inter.size.ofObject;
    inter.header := obj;
    if obj.next != null {
      obj.next.prev := obj;
    }
    assert Segment(inter.objs, obj, null);
    Behead(obj, inter.objs, null);
  }

  lemma {:induction false} AllTold(s: seq<Obj>, g: map<Obj, set<Obj>>, sh: map<Obj, Shape>, size: Sizes)
    requires g.Keys == set o | o in s
    ensures Spells(g) && Recorded(s, sh, size) <==> forall o :: o in s ==> Told(o, g, sh, size)
  {
    assert forall o :: o in s <==> o in g;
  }

  /** The graph and the shapes with one more object. */
  lemma {:induction false} JoinedApart(s: seq<Obj>, obj: Obj, u: Payload, sh: map<Obj, Shape>, shape: Shape)
    requires SlicesApart(s, sh) && obj !in s && shape.slice == (if u.ArrayObject? then u.slice else null)
    requires u.ArrayObject? ==> forall o :: o in s ==> Of(sh, o).slice != u.slice
    ensures SlicesApart([obj] + s, sh[obj := shape])
  {
  }

  lemma {:induction false} JoinedTold(s: seq<Obj>, obj: Obj, g: map<Obj, set<Obj>>, sh: map<Obj, Shape>, size: Sizes)
    requires obj !in s && Sound(obj.u) && forall o :: o in s ==> Told(o, g, sh, size)
    ensures var g', sh' := g[obj := Kids(obj.u)], sh[obj := ShapeOf(obj.u, size)];
      forall o :: o in [obj] + s ==> Told(o, g', sh', size)
  {
  }

  /** The reference counts, once the new array is on the list. */
  lemma {:induction false} JoinedCounts(s: seq<Obj>, obj: Obj, u: Payload, sh: map<Obj, Shape>, shape: Shape)
    requires obj !in s && shape.storage == (if u.ArrayObject? then u.slice.data else null)
    requires CountedWith(u, s, sh) && (u.ArrayObject? ==> u.slice.data.ref == Owners(s, sh, u.slice.data) + 1)
    ensures Counted([obj] + s, sh[obj := shape])
  {
    JoinedStorages(s, obj, sh, shape);
    forall a | a in Storages([obj] + s, sh[obj := shape])
      ensures a.ref == Owners([obj] + s, sh[obj := shape], a)
    {
      JoinedOwners(s, obj, sh, shape, a);
    }
  }

  lemma {:induction false} JoinedRepr(repr: set<object>, s: seq<Obj>, obj: Obj, sh: map<Obj, Shape>, shape: Shape)
    requires InRepr(repr, s, sh) && obj !in s && shape.storage == if obj.u.ArrayObject? then obj.u.slice.data else null
    ensures InRepr(repr + {obj} + (Parts(obj.u) + OwnStorage(obj.u)), [obj] + s, sh[obj := shape])
  {
    JoinedStorages(s, obj, sh, shape);
  }

  /** The graph of the longer list, and when no reference leads out of it. */
  lemma {:induction false} JoinedGraph(inter: Interp, s: seq<Obj>, obj: Obj, g: map<Obj, set<Obj>>, kids: set<Obj>)
    requires obj !in s && inter.objs == [obj] + s
    requires g.Keys == (set o | o in s) && Closed(g) && inter.Roots() <= g.Keys
    requires obj in inter.graph && inter.graph[obj] == kids
    requires forall o :: o in s ==> o in inter.graph && inter.graph[o] == g[o]
    ensures inter.Graph() == g[obj := kids] && inter.Graph().Keys == (set o | o in inter.objs)
    ensures inter.Roots() <= inter.Graph().Keys
    ensures Closed(inter.Graph()) <==> kids <= set o | o in inter.objs
  {
    hide AllTargets, ModuleTargets, EnvTargets, Targets;
    var h := inter.Graph();
    assert forall o :: o in inter.objs <==> o == obj || o in s;
    assert h.Keys == g.Keys + {obj};
    assert h == g[obj := kids];
    assert h.Keys == set o | o in inter.objs;
    forall x | x in s
      ensures h[x] <= h.Keys
    {
      assert x in g && g[x] <= g.Keys;
    }
    assert Closed(h) ==> h[obj] <= h.Keys;
  }

  /** The new object, linked and entered into the ghost state. */
  method Enter(inter: Interp, u: Payload, ghost kids: set<Obj>, ghost shape: Shape, ghost own: set<object>)
    returns (obj: Obj)
    requires Linked(inter.header, inter.objs)
    modifies inter`heapSize, inter`header, inter`objs, inter`graph, inter`shapes, inter`repr
    modifies (set o | o in inter.objs)`prev
    ensures fresh(obj) && obj.u == u && inter.objs == [obj] + old(inter.objs)
    ensures Linked(inter.header, inter.objs)
    ensures inter.shapes == old(inter.shapes)[obj := shape] && inter.graph == old(inter.graph)[obj := kids]
    ensures inter.repr == old(inter.repr) + {obj} + own
    ensures inter.heapSize == old(inter.heapSize) + inter.size.ofObject
  {
    hide NoDuplicates, Segment;
    ghost var s := inter.objs;
    obj := LinkObject(inter, u);
    inter.objs, inter.graph, inter.shapes := [obj] + s, inter.graph[obj := kids], inter.shapes[obj := shape];
    inter.repr := inter.repr + {obj} + own;
  }

  /** Linking and entering an object leaves the others as they are. */
  method EnterOnly(inter: Interp, u: Payload, ghost kids: set<Obj>, ghost shape: Shape, ghost own: set<object>,
                   ghost g: map<Obj, set<Obj>>, ghost sh: map<Obj, Shape>)
    returns (obj: Obj)
    requires Linked(inter.header, inter.objs) && forall o :: o in inter.objs ==> Told(o, g, sh, inter.size)
    modifies inter`heapSize, inter`header, inter`objs, inter`graph, inter`shapes, inter`repr
    modifies (set o | o in inter.objs)`prev
    ensures fresh(obj) && obj.u == u && inter.objs == [obj] + old(inter.objs)
    ensures Linked(inter.header, inter.objs)
    ensures inter.shapes == old(inter.shapes)[obj := shape] && inter.graph == old(inter.graph)[obj := kids]
    ensures inter.repr == old(inter.repr) + {obj} + own
    ensures inter.heapSize == old(inter.heapSize) + inter.size.ofObject
    ensures forall o :: o in old(inter.objs) ==> Told(o, g, sh, inter.size)
  {
    hide Linked;
    obj := Enter(inter, u, kids, shape, own);
    forall o | o in old(inter.objs)
      ensures Told(o, g, sh, inter.size)
    {
      assert o.u == old(o.u);
      assert Sound(o.u) && Kids(o.u) == old(Kids(o.u));
    }
  }

  /** And what belongs to the heap, and the roots. */
  method EnterRepr(inter: Interp, u: Payload, ghost kids: set<Obj>, ghost shape: Shape, ghost own: set<object>,
                      ghost g: map<Obj, set<Obj>>, ghost sh: map<Obj, Shape>, ghost repr: set<object>)
    returns (obj: Obj)
    requires Linked(inter.header, inter.objs) && forall o :: o in inter.objs ==> Told(o, g, sh, inter.size)
    requires InRepr(repr, inter.objs, sh)
    modifies inter`heapSize, inter`header, inter`objs, inter`graph, inter`shapes, inter`repr
    modifies (set o | o in inter.objs)`prev
    ensures fresh(obj) && obj.u == u && inter.objs == [obj] + old(inter.objs)
    ensures Linked(inter.header, inter.objs)
    ensures inter.shapes == old(inter.shapes)[obj := shape] && inter.graph == old(inter.graph)[obj := kids]
    ensures inter.repr == old(inter.repr) + {obj} + own
    ensures inter.heapSize == old(inter.heapSize) + inter.size.ofObject
    ensures forall o :: o in old(inter.objs) ==> Told(o, g, sh, inter.size)
    ensures InRepr(repr, old(inter.objs), sh) && inter.Roots() == old(inter.Roots())
  {
    hide Linked, Told, AllTargets, ModuleTargets, EnvTargets, Targets, MemberTargets;
    obj := EnterOnly(inter, u, kids, shape, own, g, sh);
  }

  /** And what was counted. */
  method EnterCounted(inter: Interp, u: Payload, ghost kids: set<Obj>, ghost shape: Shape, ghost own: set<object>,
                      ghost g: map<Obj, set<Obj>>, ghost sh: map<Obj, Shape>, ghost repr: set<object>)
    returns (obj: Obj)
    requires Linked(inter.header, inter.objs) && forall o :: o in inter.objs ==> Told(o, g, sh, inter.size)
    requires InRepr(repr, inter.objs, sh) && CountedWith(u, inter.objs, sh) && Joins(u, inter.objs, sh)
    requires kids == Kids(u) && shape == ShapeOf(u, inter.size) && own == Parts(u) + OwnStorage(u)
    modifies inter`heapSize, inter`header, inter`objs, inter`graph, inter`shapes, inter`repr
    modifies (set o | o in inter.objs)`prev
    ensures fresh(obj) && obj.u == u && inter.objs == [obj] + old(inter.objs)
    ensures Linked(inter.header, inter.objs)
    ensures inter.shapes == old(inter.shapes)[obj := shape] && inter.graph == old(inter.graph)[obj := kids]
    ensures inter.repr == old(inter.repr) + {obj} + own
    ensures inter.heapSize == old(inter.heapSize) + inter.size.ofObject
    ensures forall o :: o in old(inter.objs) ==> Told(o, g, sh, inter.size)
    ensures InRepr(repr, old(inter.objs), sh) && CountedWith(u, old(inter.objs), sh) && Joins(u, old(inter.objs), sh)
    ensures inter.Roots() == old(inter.Roots())
    ensures kids == Kids(u) && shape == ShapeOf(u, inter.size) && own == Parts(u) + OwnStorage(u)
  {
    hide Linked, Told, Joins, CountedWith, Interp.Roots, AllTargets, MemberTargets;
    obj := EnterRepr(inter, u, kids, shape, own, g, sh, repr);
  }

  /** With everything in place the heap is framed again, and valid if the new references lead into it. */
  lemma {:induction false} JoinedFramed(inter: Interp, s: seq<Obj>, obj: Obj, g: map<Obj, set<Obj>>, sh: map<Obj,
                                        Shape>, repr: set<object>)
    requires obj !in s && inter.objs == [obj] + s && inter.sp <= |inter.stack| && Linked(inter.header, inter.objs)
    requires inter !in repr && InRepr(repr, s, sh) && SlicesApart(s, sh) && CountedWith(obj.u, s, sh)
    requires Joins(obj.u, s, sh)
    requires g.Keys == (set o | o in s) && Closed(g) && inter.Roots() <= g.Keys
    requires (forall o :: o in s ==> Told(o, g, sh, inter.size))
    requires forall o :: o in s ==> o in inter.graph && inter.graph[o] == g[o]
    requires obj in inter.graph && inter.graph[obj] == Kids(obj.u)
    requires inter.shapes == sh[obj := ShapeOf(obj.u, inter.size)]
    requires inter.repr == repr + {obj} + (Parts(obj.u) + OwnStorage(obj.u))
    ensures inter.Framed() && (inter.Valid() <==> Kids(obj.u) <= set o | o in inter.objs)
  {
    hide Linked, Closed, SlicesApart, Spells, Recorded, Told, InRepr, Counted, CountedWith;
    hide AllTargets, ModuleTargets, EnvTargets, Targets, MemberTargets, Kids, Cells;
    ghost var shape, kids := ShapeOf(obj.u, inter.size), Kids(obj.u);
    JoinedApart(s, obj, obj.u, sh, shape);
    JoinedCounts(s, obj, obj.u, sh, shape);
    JoinedRepr(repr, s, obj, sh, shape);
    JoinedGraph(inter, s, obj, g, kids);
    JoinedTold(s, obj, g, sh, inter.size);
    AllTold(inter.objs, inter.Graph(), inter.shapes, inter.size);
  }

  /** `alloc_object` after its check for a collection, with the payload the caller fills in. */
  method NewObject(inter: Interp, u: Payload) returns (obj: Obj)
    requires inter !in inter.repr && inter.sp <= |inter.stack| && inter.NoDangling()
    requires InRepr(inter.repr, inter.objs, inter.shapes) && Linked(inter.header, inter.objs)
    requires Spells(inter.Graph()) && Recorded(inter.objs, inter.shapes, inter.size)
    requires SlicesApart(inter.objs, inter.shapes)
    requires CountedWith(u, inter.objs, inter.shapes) && Joins(u, inter.objs, inter.shapes)
    modifies inter`heapSize, inter`header, inter`objs, inter`graph, inter`shapes, inter`repr
    modifies (set o | o in inter.objs)`prev
    ensures inter.Framed() && fresh(obj) && obj.u == u && inter.objs == [obj] + old(inter.objs)
    ensures inter.Valid() <==> Kids(u) <= set o | o in inter.objs
    ensures Kids(u) == old(Kids(u))
    ensures inter.shapes == old(inter.shapes)[obj := ShapeOf(u, inter.size)]
    ensures inter.repr == old(inter.repr) + {obj} + (Parts(u) + OwnStorage(u))
    ensures inter.heapSize == old(inter.heapSize) + inter.size.ofObject
  {
    hide *;
    ghost var s, sh, g, repr := inter.objs, inter.shapes, inter.Graph(), inter.repr;
    BeforeJoining(inter);
    obj := EnterCounted(inter, u, Kids(u), ShapeOf(u, inter.size), Parts(u) + OwnStorage(u), g, sh, repr);
    assert obj !in s;
    JoinedFramed(inter, s, obj, g, sh, repr);
  }

  lemma {:induction false} BeforeJoining(inter: Interp)
    requires inter.NoDangling() && Spells(inter.Graph()) && Recorded(inter.objs, inter.shapes, inter.size)
    ensures forall o :: o in inter.objs ==> Told(o, inter.Graph(), inter.shapes, inter.size)
    ensures forall o :: o in inter.objs ==> o in inter.graph && o in inter.Graph() && inter.graph[o] == inter.Graph()[o]
    ensures inter.Graph().Keys == (set o | o in inter.objs) && Closed(inter.Graph())
    ensures inter.Roots() <= inter.Graph().Keys
  {
    var g := inter.Graph();
    AllTold(inter.objs, g, inter.shapes, inter.size);
    assert forall o :: o in inter.objs <==> o in g;
  }

  lemma {:induction false} PlainJoins(inter: Interp, u: Payload)
    requires inter.Valid() && !u.ArrayObject? && PlainKids(u) == {}
    ensures CountedWith(u, inter.objs, inter.shapes) && Joins(u, inter.objs, inter.shapes) && Kids(u) == {}
  {
    hide Linked, Closed, SlicesApart, Spells, Recorded, AllTargets;
  }

  /** What the counter and the live objects see of a new object. */
  lemma {:induction false} AfterJoining(inter: Interp, s: seq<Obj>, obj: Obj, sh: map<Obj, Shape>, shape: Shape,
                                        extra: int, live: set<Obj>, drift: int, bottom: bool, was: int)
    requires inter.objs == [obj] + s && obj !in s && inter.shapes == sh[obj := shape]
    requires inter.heapSize == was + inter.size.ofObject + extra
    requires shape.own + (if shape.storage != null && Owners(s, sh, shape.storage) == 0
                          then inter.size.ofValue * shape.storage.data.Length else 0) == inter.size.ofObject + extra
    requires forall o :: o in live ==> o in s
    requires was - Bytes(s, sh, inter.size) == drift
    requires bottom ==> shape.pos == 0 && forall o :: o in s ==> Of(sh, o).pos == 0
    ensures Safe(inter, live, drift, bottom)
  {
    JoinedBytes(s, obj, sh, shape, inter.size);
  }

  /** `current_heap_size += bytes` */
  method Charge(inter: Interp, bytes: int)
    requires inter.Framed()
    modifies inter`heapSize
    ensures inter.Framed() && (inter.Valid() <==> old(inter.Valid()))
    ensures inter.heapSize == old(inter.heapSize) + bytes
    ensures LooksOf(inter.objs) == old(LooksOf(inter.objs))
  {
    hide Intact, Closed, SlicesApart, AllTargets, ModuleTargets, EnvTargets, Targets;
    inter.heapSize := inter.heapSize + bytes;
  }

  lemma PlainOwn(u: Payload, size: Sizes)
    requires !u.ArrayObject? && (u.AssocObject? ==> u.members == map[])
    ensures ShapeOf(u, size) ==
      Shape(size.ofObject + if u.StringObject? && !u.isLiteral then size.ofChar * (u.length + 1) else 0, null, null, 0)
    ensures Parts(u) == {} && OwnStorage(u) == {}
  {
  }

  lemma ArrayOwn(slice: Slice<CrbValue>, size: Sizes)
    ensures ShapeOf(ArrayObject(slice), size) == Shape(size.ofObject, slice, slice.data, slice.pos)
    ensures Parts(ArrayObject(slice)) == {slice, slice.data.data} && OwnStorage(ArrayObject(slice)) == {slice.data}
  {
  }

  lemma FramedValid(inter: Interp)
    requires inter.Valid()
    ensures inter.Framed()
  {
    hide Intact, Closed, SlicesApart, Interp.Roots;
  }

  /** The allocation itself, and what it adds to the counter. */
  method CreateNow(inter: Interp, u: Payload, ghost live: set<Obj>, ghost drift: int, ghost bottom: bool)
    returns (obj: Obj)
    requires inter.Valid() && !u.ArrayObject? && PlainKids(u) == {} && (u.AssocObject? ==> u.members == map[])
    requires Safe(inter, live, drift, bottom)
    modifies inter`heapSize, inter`header, inter`objs, inter`graph, inter`shapes, inter`repr
    modifies (set o | o in inter.objs)`prev
    ensures inter.Valid() && fresh(obj) && obj.u == u && fresh(inter.repr - old(inter.repr))
    ensures inter.objs == [obj] + old(inter.objs) && Safe(inter, live, drift, bottom)
  {
    hide *;
    ghost var s, sh, was := inter.objs, inter.shapes, inter.heapSize;
    ValidParts(inter);
    PlainJoins(inter, u);
    SafeParts(inter, live, drift, bottom);
    obj := NewObject(inter, u);
    PlainOwn(u, inter.size);
    match u {
      case StringObject(length, isLiteral) =>
        if !isLiteral {
          FramedValid(inter);
          Charge(inter, inter.size.ofChar * (length + 1));
        }
      case _ =>
    }

    ghost var extra := inter.heapSize - was - inter.size.ofObject;
    AfterJoining(inter, s, obj, sh, ShapeOf(u, inter.size), extra, live, drift, bottom, was);
  }

  /** A new string, literal or not, an empty assoc, an empty scope chain or a native pointer. */
  method Create(inter: Interp, u: Payload) returns (obj: Obj)
    requires inter.Valid() && !u.ArrayObject? && PlainKids(u) == {} && (u.AssocObject? ==> u.members == map[])
    modifies inter`heapSize, inter`threshold, inter`header, inter`objs, inter`graph, inter`shapes, inter`repr
    modifies (set o | o in inter.objs)`prev, (set o | o in inter.objs)`next, (set o | o in inter.objs)`marked
    modifies Storages(inter.objs, inter.shapes)
    ensures inter.Valid() && fresh(obj) && obj.u == u && fresh(inter.repr - old(inter.repr))
    ensures inter.objs == [obj] + old(inter.Checked())
    ensures Safe(inter, old(inter.Live()), old(inter.Drift() + inter.CheckLoss()), old(inter.AtBottom()))
  {
    hide *;
    ghost var live, drift, bottom := inter.Live(), inter.Drift() + inter.CheckLoss(), inter.AtBottom();
    CheckGc(inter);
    obj := CreateNow(inter, u, live, drift, bottom);
  }

  lemma {:induction false} FreshJoins(inter: Interp, slice: Slice<CrbValue>)
    requires inter.Valid() && slice !in inter.repr && slice.data !in inter.repr
    requires slice.data.ref == 1 && InBounds(slice) && AllTargets(Cells(slice)) == {}
    ensures Owners(inter.objs, inter.shapes, slice.data) == 0
    ensures CountedWith(ArrayObject(slice), inter.objs, inter.shapes)
    ensures Joins(ArrayObject(slice), inter.objs, inter.shapes)
    ensures Kids(ArrayObject(slice)) == {}
  {
    hide Linked, Closed, SlicesApart, Spells;
    OwnersZero(inter.objs, inter.shapes, slice.data);
  }

  /** So many null values. */
  ghost function Nulls(n: nat): seq<CrbValue> {
    seq(n, i => Plain(0))
  }

  /** `open_CRB_Value_slice(size, size)`, every value null. */
  method OpenNulls(n: nat) returns (slice: Slice<CrbValue>)
    ensures fresh(slice) && fresh(slice.data) && fresh(slice.data.data) && slice.data.ref == 1
    ensures slice.pos == 0 && slice.len == n && slice.data.data.Length == n && slice.data.data[..] == Nulls(n)
    ensures InBounds(slice) && AllTargets(Cells(slice)) == {}
  {
    slice := new Slice<CrbValue>(n, n);
    for i := 0 to n
      invariant slice.data.data.Length == n && slice.pos == 0 && slice.len == n && slice.data.ref == 1
      invariant fresh(slice.data) && fresh(slice.data.data)
      invariant forall k :: 0 <= k < i ==> slice.data.data[k] == Plain(0)
    {
      slice.data.data[i] := Plain(0);
    }
    assert forall k :: 0 <= k < n ==> Cells(slice)[k] == Plain(0);
  }

  method CreateArrayNow(inter: Interp, n: nat, ghost live: set<Obj>, ghost drift: int, ghost bottom: bool)
    returns (obj: Obj)
    requires inter.Valid() && Safe(inter, live, drift, bottom)
    modifies inter`heapSize, inter`header, inter`objs, inter`graph, inter`shapes, inter`repr
    modifies (set o | o in inter.objs)`prev
    ensures inter.Valid() && fresh(obj) && obj.u.ArrayObject? && fresh(inter.repr - old(inter.repr))
    ensures fresh(obj.u.slice) && obj.u.slice.pos == 0 && obj.u.slice.len == n
    ensures fresh(obj.u.slice.data.data) && obj.u.slice.data.data[..] == Nulls(n)
    ensures inter.objs == [obj] + old(inter.objs) && Safe(inter, live, drift, bottom)
  {
    hide *;
    ghost var s, sh, was := inter.objs, inter.shapes, inter.heapSize;
    SafeParts(inter, live, drift, bottom);
    var slice := OpenNulls(n);
    ValidParts(inter);
    FreshJoins(inter, slice);
    ghost var u := ArrayObject(slice);
    obj := NewObject(inter, ArrayObject(slice));
    ArrayOwn(slice, inter.size);
    FramedValid(inter);
    Charge(inter, inter.size.ofValue * n);
    AfterJoining(inter, s, obj, sh, ShapeOf(u, inter.size), inter.size.ofValue * n, live, drift, bottom, was);
  }

  /** `crb_create_array_i` */
  method CreateArray(inter: Interp, n: nat) returns (obj: Obj)
    requires inter.Valid()
    modifies inter`heapSize, inter`threshold, inter`header, inter`objs, inter`graph, inter`shapes, inter`repr
    modifies (set o | o in inter.objs)`prev, (set o | o in inter.objs)`next, (set o | o in inter.objs)`marked
    modifies Storages(inter.objs, inter.shapes)
    ensures inter.Valid() && fresh(obj) && obj.u.ArrayObject? && fresh(inter.repr - old(inter.repr))
    ensures fresh(obj.u.slice) && obj.u.slice.pos == 0 && obj.u.slice.len == n
    ensures fresh(obj.u.slice.data.data) && obj.u.slice.data.data[..] == Nulls(n)
    ensures inter.objs == [obj] + old(inter.Checked())
    ensures Safe(inter, old(inter.Live()), old(inter.Drift() + inter.CheckLoss()), old(inter.AtBottom()))
  {
    hide *;
    ghost var live, drift, bottom := inter.Live(), inter.Drift() + inter.CheckLoss(), inter.AtBottom();
    CheckGc(inter);
    obj := CreateArrayNow(inter, n, live, drift, bottom);
  }

  /** The cells of a stretch of the storage of a slice, which may go on behind it. */
  ghost function Stretch(arr: Slice<CrbValue>, begin: nat, end: nat): seq<CrbValue>
    requires begin <= end && arr.pos + end <= arr.data.data.Length
    reads arr, arr.data.data
  {
    arr.data.data[arr.pos + begin..arr.pos + end]
  }

  lemma {:induction false} StretchAllocated(arr: Slice<CrbValue>, begin: nat, end: nat)
    requires begin <= end && arr.pos + end <= arr.data.data.Length
    ensures forall o <- AllTargets(Stretch(arr, begin, end)) :: allocated(o)
  {
    var s := Stretch(arr, begin, end);
    forall o | o in AllTargets(s)
      ensures allocated(o)
    {
      var i :| 0 <= i < |s| && o in Targets(s[i]);
      assert s[i] == arr.data.data[arr.pos + begin + i];
    }
  }

  /** `open_CRB_Value_slice_by_slice`; the stretch may go on behind what the source shows. */
  method OpenPart(src: Slice<CrbValue>, begin: nat, end: nat) returns (slice: Slice<CrbValue>)
    requires src.Valid() && begin <= end && src.pos + end <= src.data.data.Length
    modifies src.data
    ensures fresh(slice) && slice.data == src.data && slice.pos == src.pos + begin && slice.len == end - begin
    ensures src.data.ref == old(src.data.ref) + 1
    ensures InBounds(slice) && Cells(slice) == Stretch(src, begin, end)
  {
    slice := new Slice<CrbValue>.BySlice(src, begin, end);
  }

  /** Within the source the slice shows nothing new. */
  lemma {:induction false} PartTargets(src: Slice<CrbValue>, begin: nat, end: nat)
    requires InBounds(src) && begin <= end <= src.len
    ensures AllTargets(Stretch(src, begin, end)) <= AllTargets(Cells(src))
  {
    var part := Stretch(src, begin, end);
    assert forall i :: 0 <= i < |part| ==> part[i] == Cells(src)[begin + i];
  }

  /** The storage counts the new slice before its object is on the list. */
  method OpenTold(src: Slice<CrbValue>, begin: nat, end: nat, ghost s: seq<Obj>, ghost g: map<Obj, set<Obj>>,
                  ghost sh: map<Obj, Shape>, ghost size: Sizes)
    returns (slice: Slice<CrbValue>)
    requires src.Valid() && begin <= end && src.pos + end <= src.data.data.Length
    requires forall o :: o in s ==> Told(o, g, sh, size)
    modifies src.data
    ensures fresh(slice) && slice.data == src.data && slice.pos == src.pos + begin && slice.len == end - begin
    ensures src.data.ref == old(src.data.ref) + 1
    ensures InBounds(slice) && Cells(slice) == Stretch(src, begin, end)
    ensures forall o :: o in s ==> Told(o, g, sh, size)
  {
    hide AllTargets, MemberTargets;
    slice := OpenPart(src, begin, end);
    forall o | o in s
      ensures Told(o, g, sh, size)
    {
      assert o.u == old(o.u);
      assert Sound(o.u) && Kids(o.u) == old(Kids(o.u));
    }
  }

  lemma {:induction false} SourceSlice(inter: Interp, src: Obj)
    requires inter.Valid() && src in inter.objs && src.u.ArrayObject?
    ensures src.u.slice.Valid() && src.u.slice.data in Storages(inter.objs, inter.shapes)
    ensures forall o :: o in inter.objs && o.u.ArrayObject? ==> Of(inter.shapes, o).slice == o.u.slice
    ensures forall o :: o in inter.objs && !o.u.ArrayObject? ==> Of(inter.shapes, o).slice == null
  {
    hide Linked, Closed, SlicesApart, Spells;
    var a := src.u.slice.data;
    assert Of(inter.shapes, src).storage == a;
    OwnersZero(inter.objs, inter.shapes, a);
  }

  /** The slice is counted by its storage, and nothing else has changed. */
  method OpenCounted(src: Slice<CrbValue>, begin: nat, end: nat, ghost s: seq<Obj>, ghost g: map<Obj, set<Obj>>,
                     ghost sh: map<Obj, Shape>, ghost size: Sizes, ghost header: Obj?, ghost repr: set<object>)
    returns (slice: Slice<CrbValue>)
    requires src.Valid() && begin <= end && src.pos + end <= src.data.data.Length
    requires forall o :: o in s ==> Told(o, g, sh, size)
    requires Linked(header, s) && InRepr(repr, s, sh) && Counted(s, sh) && src.data in Storages(s, sh)
    modifies src.data
    ensures fresh(slice) && slice.data == src.data && slice.pos == src.pos + begin && slice.len == end - begin
    ensures InBounds(slice) && Cells(slice) == Stretch(src, begin, end)
    ensures forall o :: o in s ==> Told(o, g, sh, size)
    ensures Linked(header, s) && InRepr(repr, s, sh) && CountedWith(ArrayObject(slice), s, sh)
    ensures slice.data.ref == Owners(s, sh, slice.data) + 1
  {
    hide AllTargets, MemberTargets, Told, Cells;
    slice := OpenTold(src, begin, end, s, g, sh, size);
  }

  lemma {:induction false} SharedJoins(inter: Interp, s: seq<Obj>, src: Obj, slice: Slice<CrbValue>, g: map<Obj,
                                       set<Obj>>, sh: map<Obj, Shape>)
    requires src in s && src.u.ArrayObject? && g.Keys == (set o | o in s) && Closed(g)
    requires (forall o :: o in s ==> Told(o, g, sh, inter.size)) && InBounds(slice)
    requires slice.data.ref == Owners(s, sh, slice.data) + 1 && forall o :: o in s ==> Of(sh, o).slice != slice
    ensures Spells(g) && Recorded(s, sh, inter.size) && Joins(ArrayObject(slice), s, sh)
    ensures Kids(ArrayObject(slice)) == AllTargets(Cells(slice))
    ensures AllTargets(Cells(src.u.slice)) <= set o | o in s
  {
    AllTold(s, g, sh, inter.size);
    assert src in g.Keys;
    assert g[src] == Kids(src.u);
  }

  lemma {:induction false} SoundSlice(inter: Interp, o: Obj)
    requires inter.Valid() && o in inter.objs && o.u.ArrayObject?
    ensures InBounds(o.u.slice)
  {
    SourceSlice(inter, o);
  }

  /** The slice, and what it means for a new object. */
  method OpenShared(inter: Interp, arr: Slice<CrbValue>, begin: nat, end: nat, ghost src: Obj,
                    ghost live: set<Obj>, ghost drift: int, ghost bottom: bool)
    returns (slice: Slice<CrbValue>)
    requires inter.Valid() && src in inter.objs && src.u == ArrayObject(arr)
    requires begin <= end && arr.pos + end <= arr.data.data.Length && Safe(inter, live, drift, bottom)
    modifies arr.data
    ensures Safe(inter, live, drift, bottom)
    ensures inter !in inter.repr && inter.sp <= |inter.stack| && inter.NoDangling()
    ensures SlicesApart(inter.objs, inter.shapes)
    ensures fresh(slice) && slice.data == arr.data && slice.pos == arr.pos + begin && slice.len == end - begin
    ensures InRepr(inter.repr, inter.objs, inter.shapes) && Linked(inter.header, inter.objs)
    ensures Spells(inter.Graph()) && Recorded(inter.objs, inter.shapes, inter.size)
    ensures CountedWith(ArrayObject(slice), inter.objs, inter.shapes)
    ensures Joins(ArrayObject(slice), inter.objs, inter.shapes)
    ensures slice.data in Storages(inter.objs, inter.shapes)
    ensures slice.data in inter.repr && slice.data.data in inter.repr
    ensures InBounds(slice) && Cells(slice) == Stretch(arr, begin, end)
    ensures Kids(ArrayObject(slice)) == AllTargets(Cells(slice))
    ensures end <= arr.len ==> Kids(ArrayObject(slice)) <= set o | o in inter.objs
  {
    hide *;
    SourceSlice(inter, src);
    SoundSlice(inter, src);
    ValidParts(inter);
    BeforeJoining(inter);
    OldSlices(inter);
    InReprArray(inter, src);
    slice := OpenCounted(arr, begin, end, inter.objs, inter.Graph(), inter.shapes, inter.size, inter.header,
                         inter.repr);
    SharedJoins(inter, inter.objs, src, slice, inter.Graph(), inter.shapes);
    if end <= arr.len {
      PartTargets(arr, begin, end);
    }
  }

  lemma {:induction false} InReprArray(inter: Interp, src: Obj)
    requires inter.Valid() && src in inter.objs && src.u.ArrayObject?
    ensures src.u.slice.data in inter.repr && src.u.slice.data.data in inter.repr && src.u.slice in inter.repr
    ensures src in inter.repr
  {
    hide Linked, Closed, SlicesApart, Spells, Counted;
    SourceSlice(inter, src);
  }

  lemma {:induction false} OldSlices(inter: Interp)
    requires inter.Valid()
    ensures forall o :: o in inter.objs ==> Of(inter.shapes, o).slice == null || Of(inter.shapes, o).slice in inter.repr
  {
    hide Linked, Closed, SlicesApart, Spells, Counted;
  }

  lemma {:induction false} SharedFacts(inter: Interp, src: Obj, live: set<Obj>, drift: int, bottom: bool)
    requires inter.Valid() && src in inter.objs && src.u.ArrayObject? && Safe(inter, live, drift, bottom)
    ensures Owners(inter.objs, inter.shapes, src.u.slice.data) > 0 && Of(inter.shapes, src).pos == src.u.slice.pos
    ensures bottom ==> src.u.slice.pos == 0
    ensures inter !in inter.repr && inter.sp <= |inter.stack| && inter.NoDangling()
    ensures SlicesApart(inter.objs, inter.shapes)
    ensures src.u.slice.data in Storages(inter.objs, inter.shapes)
  {
    hide Linked, Closed, SlicesApart, Spells, Counted;
    SourceSlice(inter, src);
    OwnersZero(inter.objs, inter.shapes, src.u.slice.data);
  }

  lemma SafeParts(inter: Interp, live: set<Obj>, drift: int, bottom: bool)
    requires Safe(inter, live, drift, bottom)
    ensures forall o :: o in live ==> o in inter.objs
    ensures inter.heapSize - Bytes(inter.objs, inter.shapes, inter.size) == drift
    ensures bottom ==> forall o :: o in inter.objs ==> Of(inter.shapes, o).pos == 0
  {
  }

  /** The object for a slice of a storage that other arrays are on already. */
  method JoinShared(inter: Interp, slice: Slice<CrbValue>, ghost live: set<Obj>, ghost drift: int, ghost bottom: bool)
    returns (obj: Obj)
    requires inter !in inter.repr && inter.sp <= |inter.stack| && inter.NoDangling()
    requires InRepr(inter.repr, inter.objs, inter.shapes) && Linked(inter.header, inter.objs)
    requires Spells(inter.Graph()) && Recorded(inter.objs, inter.shapes, inter.size)
    requires SlicesApart(inter.objs, inter.shapes)
    requires CountedWith(ArrayObject(slice), inter.objs, inter.shapes)
    requires Joins(ArrayObject(slice), inter.objs, inter.shapes)
    requires slice.data in Storages(inter.objs, inter.shapes)
    requires Safe(inter, live, drift, bottom) && (bottom ==> slice.pos == 0)
    modifies inter`heapSize, inter`header, inter`objs, inter`graph, inter`shapes, inter`repr
    modifies (set o | o in inter.objs)`prev
    ensures inter.Framed() && fresh(obj) && obj.u == ArrayObject(slice) && inter.objs == [obj] + old(inter.objs)
    ensures inter.Valid() <==> Kids(ArrayObject(slice)) <= set o | o in inter.objs
    ensures Kids(ArrayObject(slice)) == old(Kids(ArrayObject(slice)))
    ensures inter.repr <= old(inter.repr) + {obj, slice, slice.data, slice.data.data}
    ensures slice.data == old(slice.data) && slice.pos == old(slice.pos) && slice.len == old(slice.len)
    ensures Safe(inter, live, drift, bottom)
  {
    hide *;
    ghost var s, sh, was := inter.objs, inter.shapes, inter.heapSize;
    SafeParts(inter, live, drift, bottom);
    OwnersZero(s, sh, slice.data);
    obj := NewObject(inter, ArrayObject(slice));
    ArrayOwn(slice, inter.size);
    AfterJoining(inter, s, obj, sh, ShapeOf(ArrayObject(slice), inter.size), 0, live, drift, bottom, was);
  }

  lemma {:induction false} Longer(s: seq<Obj>, s': seq<Obj>, obj: Obj)
    requires s' == [obj] + s
    ensures (set o | o in s) <= set o | o in s'
  {
  }

  method CreateArraySliceNow(inter: Interp, arr: Slice<CrbValue>, begin: nat, end: nat, ghost src: Obj,
                             ghost live: set<Obj>, ghost drift: int, ghost bottom: bool)
    returns (obj: Obj)
    requires inter.Valid() && Safe(inter, live, drift, bottom)
    requires src in inter.objs && src.u == ArrayObject(arr) && begin <= end && arr.pos + end <= arr.data.data.Length
    modifies inter`heapSize, inter`header, inter`objs, inter`graph, inter`shapes, inter`repr
    modifies (set o | o in inter.objs)`prev
    modifies arr.data
    ensures inter.Framed() && fresh(obj) && obj.u.ArrayObject? && fresh(inter.repr - old(inter.repr))
    ensures fresh(obj.u.slice)
    ensures obj.u.slice.data == arr.data && obj.u.slice.pos == arr.pos + begin && obj.u.slice.len == end - begin
    ensures inter.Valid() <==> AllTargets(Stretch(arr, begin, end)) <= set o | o in inter.objs
    ensures end <= arr.len ==> inter.Valid()
    ensures inter.objs == [obj] + old(inter.objs) && Safe(inter, live, drift, bottom && begin == 0)
  {
    hide *;
    SharedFacts(inter, src, live, drift, bottom);
    SafeLess(inter, live, drift, bottom, bottom && begin == 0);
    var slice := OpenShared(inter, arr, begin, end, src, live, drift, bottom && begin == 0);
    ghost var s := inter.objs;
    obj := JoinShared(inter, slice, live, drift, bottom && begin == 0);
    Longer(s, inter.objs, obj);
  }

  lemma SafeLess(inter: Interp, live: set<Obj>, drift: int, bottom: bool, bottom': bool)
    requires Safe(inter, live, drift, bottom) && (bottom' ==> bottom)
    ensures Safe(inter, live, drift, bottom')
  {
  }

  lemma SafeLive(inter: Interp, live: set<Obj>, drift: int, bottom: bool, o: Obj)
    requires Safe(inter, live, drift, bottom) && o in live
    ensures o in inter.objs
  {
  }

  lemma LiveListed(inter: Interp, o: Obj)
    requires o in inter.Live()
    ensures o in inter.objs
  {
  }

  /** `crb_create_array_slice_i`; the source has to be reachable, or the collection inside may free it.
      The heap is valid afterwards exactly if the cells shown refer to nothing that has been freed, which
      is so whenever the slice ends within its source. */
  method CreateArraySlice(inter: Interp, arr: Slice<CrbValue>, begin: nat, end: nat, ghost src: Obj) returns (obj: Obj)
    requires inter.Valid() && src in inter.Live() && src.u == ArrayObject(arr)
    requires begin <= end && arr.pos + end <= arr.data.data.Length
    modifies inter`heapSize, inter`threshold, inter`header, inter`objs, inter`graph, inter`shapes, inter`repr
    modifies (set o | o in inter.objs)`prev, (set o | o in inter.objs)`next, (set o | o in inter.objs)`marked
    modifies Storages(inter.objs, inter.shapes)
    ensures inter.Framed() && fresh(obj) && obj.u.ArrayObject? && fresh(inter.repr - old(inter.repr))
    ensures fresh(obj.u.slice)
    ensures obj.u.slice.data == arr.data && obj.u.slice.pos == arr.pos + begin && obj.u.slice.len == end - begin
    ensures inter.Valid() <==> old(AllTargets(Stretch(arr, begin, end)) <= set o | o in inter.Checked())
    ensures inter.Valid() <==> AllTargets(Stretch(arr, begin, end)) <= set o | o in inter.objs
    ensures end <= arr.len ==> inter.Valid()
    ensures inter.objs == [obj] + old(inter.Checked())
    ensures Safe(inter, old(inter.Live()), old(inter.Drift() + inter.CheckLoss()), old(inter.AtBottom()) && begin == 0)
  {
    hide *;
    ghost var live, drift, bottom := inter.Live(), inter.Drift() + inter.CheckLoss(), inter.AtBottom();
    LiveListed(inter, src);
    SourceSlice(inter, src);
    ghost var shown := AllTargets(Stretch(arr, begin, end));
    StretchAllocated(arr, begin, end);
    CheckGc(inter);
    SafeLive(inter, live, drift, bottom, src);
    obj := CreateArraySliceNow(inter, arr, begin, end, src, live, drift, bottom);
    assert obj !in shown;
    assert forall o :: o in shown ==> (o in inter.objs <==> o in old(inter.Checked()));
  }

  // ---------------------------------------------------------------- stores

  /** A store of values with the targets `more` has added no other reference. */
  ghost predicate Wrote(o: Obj, g: map<Obj, set<Obj>>, sh: map<Obj, Shape>, size: Sizes, more: set<Obj>)
    reads o`u, Parts(o.u)
  {
    Sound(o.u) && o in g && Kids(o.u) <= g[o] + more && Of(sh, o) == ShapeOf(o.u, size)
  }

  /** What the looks of an object mean for the collector. */
  lemma ToldLook(o: Obj, g: map<Obj, set<Obj>>, sh: map<Obj, Shape>, size: Sizes)
    requires Told(o, g, sh, size)
    ensures Fits(LookOf(o)) && LookOf(o).Refs() == g[o]
    ensures o.u.ArrayObject? ==> Of(sh, o) == Shape(size.ofObject, o.u.slice, o.u.slice.data, o.u.slice.pos)
    ensures !o.u.ArrayObject? ==> Of(sh, o) == PlainShape(o.u, size)
  {
    LookKids(o);
  }

  lemma LookWrote(o: Obj, g: map<Obj, set<Obj>>, sh: map<Obj, Shape>, size: Sizes, more: set<Obj>)
    requires Fits(LookOf(o)) && o in g && LookOf(o).Refs() <= g[o] + more
    requires o.u.ArrayObject? ==> Of(sh, o) == Shape(size.ofObject, o.u.slice, o.u.slice.data, o.u.slice.pos)
    requires !o.u.ArrayObject? ==> Of(sh, o) == PlainShape(o.u, size)
    ensures Wrote(o, g, sh, size, more)
  {
    LookKids(o);
  }

  lemma {:induction false} AllLooks(s: seq<Obj>, g: map<Obj, set<Obj>>, sh: map<Obj, Shape>, size: Sizes)
    requires forall o :: o in s ==> Told(o, g, sh, size)
    ensures forall o :: o in s ==> o in g && o in LooksOf(s) && LooksOf(s)[o] == LookOf(o)
    ensures forall o :: o in s ==> Fits(LooksOf(s)[o]) && LooksOf(s)[o].Refs() == g[o]
    ensures forall o :: o in s && o.u.ArrayObject? ==>
      Of(sh, o) == Shape(size.ofObject, o.u.slice, o.u.slice.data, o.u.slice.pos)
    ensures forall o :: o in s && !o.u.ArrayObject? ==> Of(sh, o) == PlainShape(o.u, size)
  {
    hide Told;
    forall o | o in s
      ensures o in g && LooksOf(s)[o] == LookOf(o) && Fits(LookOf(o)) && LookOf(o).Refs() == g[o]
      ensures o.u.ArrayObject? ==> Of(sh, o) == Shape(size.ofObject, o.u.slice, o.u.slice.data, o.u.slice.pos)
      ensures !o.u.ArrayObject? ==> Of(sh, o) == PlainShape(o.u, size)
    {
      assert Told(o, g, sh, size);
      ToldLook(o, g, sh, size);
      InGraph(o, g, sh, size);
    }
  }

  lemma InGraph(o: Obj, g: map<Obj, set<Obj>>, sh: map<Obj, Shape>, size: Sizes)
    requires Told(o, g, sh, size)
    ensures o in g
  {
  }

  lemma {:induction false} AllWrote(s: seq<Obj>, g: map<Obj, set<Obj>>, sh: map<Obj, Shape>, size: Sizes,
                                    more: set<Obj>)
    requires forall o :: o in s ==> o in g && Fits(LooksOf(s)[o]) && LooksOf(s)[o].Refs() <= g[o] + more
    requires forall o :: o in s && o.u.ArrayObject? ==>
      Of(sh, o) == Shape(size.ofObject, o.u.slice, o.u.slice.data, o.u.slice.pos)
    requires forall o :: o in s && !o.u.ArrayObject? ==> Of(sh, o) == PlainShape(o.u, size)
    ensures forall o :: o in s ==> Wrote(o, g, sh, size, more)
  {
    hide Wrote;
    forall o | o in s
      ensures Wrote(o, g, sh, size, more)
    {
      assert LooksOf(s)[o] == LookOf(o);
      LookWrote(o, g, sh, size, more);
    }
  }

  /** `slice_set`, as it looks from every object of the list. */
  method SetLooked(slice: Slice<CrbValue>, index: nat, value: CrbValue, ghost s: seq<Obj>, ghost x: Obj)
    requires slice.Valid() && index < slice.len && x in s && x.u == ArrayObject(slice)
    modifies slice.data.data
    ensures Cells(slice) == old(Cells(slice))[index := value]
    ensures x in old(LooksOf(s)) && LooksOf(s) == SetLooks(old(LooksOf(s)), x, index, value)
  {
    hide AllTargets, MemberTargets, PlainKids;
    ghost var was := LooksOf(s);
    var _ := slice.Set(index, value);
    forall o | o in s
      ensures LookOf(o) == SetLook(was[o], was[x], index, value)
    {
    }
  }

  lemma {:induction false} SetWrote(s: seq<Obj>, was: map<Obj, Look>, x: Obj, index: nat, value: CrbValue, g: map<Obj,
                                    set<Obj>>)
    requires x in was && forall o :: o in s ==> o in was && o in g && Fits(was[o]) && was[o].Refs() == g[o]
    ensures forall o :: o in s ==>
      Fits(SetLooks(was, x, index, value)[o]) && SetLooks(was, x, index, value)[o].Refs() <= g[o] + Targets(value)
  {
    forall o | o in s
      ensures Fits(SetLooks(was, x, index, value)[o])
      ensures SetLooks(was, x, index, value)[o].Refs() <= g[o] + Targets(value)
    {
      SetRefs(was[o], was[x], index, value);
      hide Look.Refs, Targets;
    }
  }

  /** And what it means for the collector. */
  method SetCell(slice: Slice<CrbValue>, index: nat, value: CrbValue, ghost s: seq<Obj>, ghost g: map<Obj, set<Obj>>,
                 ghost sh: map<Obj, Shape>, ghost size: Sizes, ghost x: Obj)
    requires slice.Valid() && index < slice.len && (forall o :: o in s ==> Told(o, g, sh, size))
    requires x in s && x.u == ArrayObject(slice)
    modifies slice.data.data
    ensures Cells(slice) == old(Cells(slice))[index := value]
    ensures x in old(LooksOf(s)) && LooksOf(s) == SetLooks(old(LooksOf(s)), x, index, value)
    ensures forall o :: o in s ==> Wrote(o, g, sh, size, Targets(value))
  {
    hide *;
    ghost var was := LooksOf(s);
    AllLooks(s, g, sh, size);
    SetWrote(s, was, x, index, value, g);
    SetLooked(slice, index, value, s, x);
    AllWrote(s, g, sh, size, Targets(value));
  }

  lemma ViewAt(slice: Slice<CrbValue>, index: nat)
    requires slice.Valid() && index < slice.len
    ensures slice.View()[index] == slice.data.data[..][slice.pos + index]
  {
  }

  lemma LooksArray(s: seq<Obj>, x: Obj, slice: Slice<CrbValue>)
    requires x in s && x.u == ArrayObject(slice)
    ensures x in LooksOf(s) && LooksOf(s)[x].u == ArrayObject(slice) && LooksOf(s)[x].owner == slice.data
    ensures LooksOf(s)[x].pos == slice.pos && LooksOf(s)[x].len == slice.len
    ensures LooksOf(s)[x].cells == slice.data.data[..]
  {
  }

  /** `slice_pop` on the array `x`, as it looks from every object of the list. */
  method PopLooked(slice: Slice<CrbValue>, index: nat, ghost s: seq<Obj>, ghost x: Obj) returns (value: CrbValue)
    requires slice.Valid() && index < slice.len && x in s && x.u == ArrayObject(slice)
    requires forall o :: o in s && o != x ==> o.u != ArrayObject(slice)
    modifies slice`len, slice.data.data
    ensures x in old(LooksOf(s)) && LooksOf(s) == PopLooks(old(LooksOf(s)), x, index)
    ensures value == old(LooksOf(s))[x].At(index)
  {
    hide AllTargets, MemberTargets, PlainKids, GapClosed, Slice.View;
    ghost var was := LooksOf(s);
    ViewAt(slice, index);
    LooksArray(s, x, slice);
    value := slice.Pop(index);
    forall o | o in s
      ensures LookOf(o) == PopLook(was[o], was[x], index, o == x)
    {
    }
  }

  lemma {:induction false} PopWrote(s: seq<Obj>, was: map<Obj, Look>, x: Obj, index: nat, g: map<Obj, set<Obj>>)
    requires x in s && Coherent(was) && x in was && index < was[x].len && was[x].u.ArrayObject?
    requires forall o :: o in s ==> o in was && o in g && Fits(was[o]) && was[o].Refs() == g[o]
    ensures forall o :: o in s ==> Fits(PopLooks(was, x, index)[o]) && PopLooks(was, x, index)[o].Refs() <= g[o] + g[x]
  {
    forall o | o in s
      ensures Fits(PopLooks(was, x, index)[o]) && PopLooks(was, x, index)[o].Refs() <= g[o] + g[x]
    {
      PopRefs(was[o], was[x], index, o == x);
      hide Look.Refs;
    }
  }

  method PopCell(slice: Slice<CrbValue>, index: nat, ghost s: seq<Obj>, ghost g: map<Obj, set<Obj>>,
                 ghost sh: map<Obj, Shape>, ghost size: Sizes, ghost x: Obj)
    returns (value: CrbValue)
    requires slice.Valid() && index < slice.len && (forall o :: o in s ==> Told(o, g, sh, size)) && x in g
    requires x in s && x.u == ArrayObject(slice) && forall o :: o in s && o != x ==> o.u != ArrayObject(slice)
    modifies slice`len, slice.data.data
    ensures x in old(LooksOf(s)) && LooksOf(s) == PopLooks(old(LooksOf(s)), x, index)
    ensures value == old(LooksOf(s))[x].At(index)
    ensures forall o :: o in s ==> Wrote(o, g, sh, size, g[x])
  {
    hide *;
    ghost var was := LooksOf(s);
    AllLooks(s, g, sh, size);
    LooksCoherent(s);
    LooksArray(s, x, slice);
    PopWrote(s, was, x, index, g);
    value := PopLooked(slice, index, s, x);
    AllWrote(s, g, sh, size, g[x]);
  }

  /** There is room for one more value, or more storage to be had. */
  predicate Extensible(slice: Slice<CrbValue>)
    reads slice
  {
    slice.pos + slice.len < slice.data.data.Length || slice.data.data.Length < LONG_MAX
  }

  /** Either way the storage ends up as after an insertion. */
  method ExtendCells(slice: Slice<CrbValue>, index: nat, value: CrbValue, append: bool)
    requires slice.Valid() && Extensible(slice) && index <= slice.len && (append ==> index == slice.len)
    modifies slice, slice.data, slice.data.data
    ensures slice.Valid() && slice.len == old(slice.len) + 1
    ensures old(slice.pos + slice.len < slice.data.data.Length) ==>
      && slice.data == old(slice.data) && slice.pos == old(slice.pos) && slice.data.ref == old(slice.data.ref)
      && slice.data.data[..] == Shifted(old(slice.data.data[..]), slice.pos, old(slice.len), index, value)
    ensures old(slice.pos + slice.len == slice.data.data.Length) ==>
      && fresh(slice.data) && fresh(slice.data.data) && slice.data.ref == 1 && slice.pos == 0
      && old(slice.data).ref == old(slice.data.ref) - 1 && old(slice.data).data[..] == old(slice.data.data[..])
      && slice.data.data.Length == GrownCap(old(slice.len), old(slice.len) + 1)
      && slice.View() == Inserted(old(slice.View()), slice.data.data[old(slice.len)], index, value)
  {
    hide Shifted, Inserted, GrownCap;
    ghost var view, cells, pos, len := slice.View(), slice.data.data[..], slice.pos, slice.len;
    if append {
      var _ := slice.Append(value);
      assert slice.View()[len] == slice.data.data[slice.pos + len];
      InsertedEnd(view, value, value);
      if pos + len < |cells| {
        ShiftedEnd(cells, pos, len, value);
      }
    } else {
      ghost var behind := slice.Insert(index, value);
      InsertedLast(view, behind, index, value);
      assert slice.View()[len] == slice.data.data[slice.pos + len];
    }
  }

  /** `slice_insert`, or `slice_append` at the end, on the array `x`, as it looks from every object of the list. */
  method ExtendLooked(slice: Slice<CrbValue>, index: nat, value: CrbValue, append: bool, ghost s: seq<Obj>,
                      ghost x: Obj)
    requires slice.Valid() && Extensible(slice) && index <= slice.len && (append ==> index == slice.len)
    requires x in s && x.u == ArrayObject(slice) && forall o :: o in s && o != x ==> o.u != ArrayObject(slice)
    modifies slice, slice.data, slice.data.data
    ensures InsertLooks(old(LooksOf(s)), LooksOf(s), x, index, value)
    ensures old(slice.pos + slice.len < slice.data.data.Length) ==>
      slice.data == old(slice.data) && slice.pos == old(slice.pos) && slice.data.ref == old(slice.data.ref)
    ensures old(slice.pos + slice.len == slice.data.data.Length) ==>
      && fresh(slice.data) && fresh(slice.data.data) && slice.data.ref == 1 && slice.pos == 0
      && old(slice.data).ref == old(slice.data.ref) - 1
  {
    hide AllTargets, MemberTargets, PlainKids, GrownCap, Shifted, Inserted;
    ghost var was, at, cells, pos, len := LooksOf(s), slice.pos + slice.len, slice.data.data[..], slice.pos, slice.len;
    ExtendCells(slice, index, value, append);
    if at < |was[x].cells| {
      forall o | o in s
        ensures LookOf(o) == InsertLook(was[o], was[x], index, value, o == x)
      {
      }
    } else {
      assert was[x].Shows() == cells[pos..pos + len];
      assert RegrownBy(was[x], LookOf(x), index, value);
      forall o | o in s && o != x
        ensures LookOf(o) == was[o] && LookOf(x).Storage() != was[o].Storage()
      {
      }
    }
  }

  /** Everything but the ghost graph and shapes is in order, except that references may lead off the list. */
  ghost predicate Unsettled(inter: Interp, sh: map<Obj, Shape>, repr: set<object>)
    reads inter, repr
  {
    && inter !in repr && inter.sp <= |inter.stack| && inter.Roots() <= (set o | o in inter.objs)
    && InRepr(repr, inter.objs, sh) && Linked(inter.header, inter.objs)
    && Counted(inter.objs, sh) && SlicesApart(inter.objs, sh)
    && forall o :: o in inter.objs ==> Sound(o.u) && Of(sh, o) == ShapeOf(o.u, inter.size)
  }

  /** None does. */
  ghost predicate NoneGone(s: seq<Obj>)
    reads s, set o, x | o in s && x in Parts(o.u) :: x
  {
    forall o :: o in s ==> Kids(o.u) <= set p | p in s
  }

  ghost function KidsOf(s: seq<Obj>): map<Obj, set<Obj>>
    reads s, set o, x | o in s && x in Parts(o.u) :: x
  {
    map o | o in s :: Kids(o.u)
  }

  lemma {:induction false} SettledHeap(inter: Interp, sh: map<Obj, Shape>, repr: set<object>)
    requires Unsettled(inter, sh, repr)
    ensures var g := KidsOf(inter.objs);
      && Intact(repr, inter.header, inter.objs, g, sh, inter.size) && SlicesApart(inter.objs, sh)
      && inter.Roots() <= g.Keys && g.Keys == (set o | o in inter.objs) && (Closed(g) <==> NoneGone(inter.objs))
    ensures inter !in repr && inter.sp <= |inter.stack|
  {
    hide Linked, Counted, SlicesApart, AllTargets, MemberTargets, EnvTargets, ModuleTargets, Targets;
    assert forall o :: o in inter.objs <==> o in KidsOf(inter.objs);
  }

  ghost method EnterGhost(inter: Interp, g: map<Obj, set<Obj>>, sh: map<Obj, Shape>, repr: set<object>)
    requires inter !in repr && Intact(repr, inter.header, inter.objs, g, sh, inter.size)
    modifies inter`graph, inter`shapes, inter`repr
    ensures inter.graph == g && inter.shapes == sh && inter.repr == repr
    ensures Intact(repr, inter.header, inter.objs, g, sh, inter.size) && inter.Roots() == old(inter.Roots())
  {
    hide Intact, AllTargets, EnvTargets, ModuleTargets, Targets;
    inter.graph, inter.shapes, inter.repr := g, sh, repr;
  }

  lemma {:induction false} FoldFramed(inter: Interp)
    requires inter !in inter.repr && inter.sp <= |inter.stack|
    requires Intact(inter.repr, inter.header, inter.objs, inter.graph, inter.shapes, inter.size)
    requires SlicesApart(inter.objs, inter.shapes)
    requires inter.Roots() <= inter.graph.Keys && inter.graph.Keys == set o | o in inter.objs
    ensures inter.Framed() && (inter.Valid() <==> Closed(inter.graph))
  {
    hide Intact, SlicesApart, Closed;
    var h := inter.Graph();
    assert forall o :: o in inter.objs <==> o in inter.graph;
    assert h == inter.graph;
  }

  /** The ghost state catches up with the objects. */
  ghost method Settle(inter: Interp, sh: map<Obj, Shape>, repr: set<object>)
    requires Unsettled(inter, sh, repr)
    modifies inter`graph, inter`shapes, inter`repr
    ensures inter.Framed() && (inter.Valid() <==> old(NoneGone(inter.objs)))
    ensures inter.shapes == sh && inter.repr == repr
  {
    hide *;
    SettledHeap(inter, sh, repr);
    EnterGhost(inter, KidsOf(inter.objs), sh, repr);
    FoldFramed(inter);
  }

  /** That changes nothing of what can be read. */
  ghost method SettleLooks(inter: Interp, sh: map<Obj, Shape>, repr: set<object>)
    requires Unsettled(inter, sh, repr)
    modifies inter`graph, inter`shapes, inter`repr
    ensures inter.Framed() && (inter.Valid() <==> old(NoneGone(inter.objs)))
    ensures inter.shapes == sh && inter.repr == repr && LooksOf(inter.objs) == old(LooksOf(inter.objs))
  {
    hide Unsettled, NoneGone, Interp.Valid, Interp.Framed, AllTargets, MemberTargets, PlainKids;
    Settle(inter, sh, repr);
  }

  /** The list and the counts do not depend on the cells. */
  method SetCellOnly(slice: Slice<CrbValue>, index: nat, value: CrbValue, ghost s: seq<Obj>, ghost g: map<Obj,
                     set<Obj>>, ghost sh: map<Obj, Shape>, ghost size: Sizes, ghost x: Obj, ghost header: Obj?,
                     ghost repr: set<object>)
    requires slice.Valid() && index < slice.len && forall o :: o in s ==> Told(o, g, sh, size)
    requires x in s && x.u == ArrayObject(slice)
    requires Linked(header, s) && InRepr(repr, s, sh) && Counted(s, sh)
    modifies slice.data.data
    ensures Cells(slice) == old(Cells(slice))[index := value]
    ensures x in old(LooksOf(s)) && LooksOf(s) == SetLooks(old(LooksOf(s)), x, index, value)
    ensures forall o :: o in s ==> Wrote(o, g, sh, size, Targets(value))
    ensures Linked(header, s) && InRepr(repr, s, sh) && Counted(s, sh)
  {
    hide Told, Wrote, Owners, Cells, LooksOf, SetLooks;
    SetCell(slice, index, value, s, g, sh, size, x);
  }

  lemma {:induction false} BeforeStore(inter: Interp, obj: Obj)
    requires inter.Valid() && obj in inter.objs && obj.u.ArrayObject?
    ensures obj.u.slice.Valid() && obj.u.slice.data in Storages(inter.objs, inter.shapes)
    ensures forall o :: o in inter.objs ==> Told(o, inter.Graph(), inter.shapes, inter.size)
    ensures inter.Graph().Keys == (set o | o in inter.objs) && Closed(inter.Graph())
    ensures inter.Roots() <= inter.Graph().Keys
    ensures inter !in inter.repr && inter.sp <= |inter.stack| && SlicesApart(inter.objs, inter.shapes)
    ensures Linked(inter.header, inter.objs) && InRepr(inter.repr, inter.objs, inter.shapes)
    ensures Counted(inter.objs, inter.shapes)
  {
    SourceSlice(inter, obj);
    BeforeJoining(inter);
  }

  lemma {:induction false} WroteUnsettled(inter: Interp, g: map<Obj, set<Obj>>, sh: map<Obj, Shape>,
      repr: set<object>, more: set<Obj>)
    requires forall o :: o in inter.objs ==> Wrote(o, g, sh, inter.size, more)
    requires g.Keys == (set o | o in inter.objs) && Closed(g) && inter.Roots() <= g.Keys
    requires inter !in repr && inter.sp <= |inter.stack| && SlicesApart(inter.objs, sh)
    requires Linked(inter.header, inter.objs) && InRepr(repr, inter.objs, sh) && Counted(inter.objs, sh)
    ensures Unsettled(inter, sh, repr) && (more <= g.Keys ==> NoneGone(inter.objs))
  {
    hide Linked, Counted, SlicesApart, InRepr, AllTargets, MemberTargets, EnvTargets, ModuleTargets, Targets;
    forall o | o in inter.objs
      ensures Sound(o.u) && Of(sh, o) == ShapeOf(o.u, inter.size)
      ensures more <= g.Keys ==> Kids(o.u) <= set p | p in inter.objs
    {
      assert Wrote(o, g, sh, inter.size, more) && g[o] <= g.Keys;
    }
  }

  /** `CRB_array_set` on the array `obj`. */
  method ArraySet(inter: Interp, slice: Slice<CrbValue>, index: nat, value: CrbValue, ghost obj: Obj)
    requires inter.Valid() && obj in inter.objs && obj.u == ArrayObject(slice) && InBounds(slice) && index < slice.len
    requires Targets(value) <= set o | o in inter.objs
    modifies inter`graph, inter`shapes, inter`repr, slice.data.data
    ensures inter.Valid() && inter.shapes == old(inter.shapes) && inter.repr == old(inter.repr)
    ensures |old(Cells(slice))| == old(slice.len) && Cells(slice) == old(Cells(slice))[index := value]
    ensures obj in old(LooksOf(inter.objs))
    ensures LooksOf(inter.objs) == SetLooks(old(LooksOf(inter.objs)), obj, index, value)
  {
    hide *;
    InBoundsLength(slice);
    BeforeStore(inter, obj);
    ghost var g := inter.Graph();
    SetCellOnly(slice, index, value, inter.objs, g, inter.shapes, inter.size, obj, inter.header, inter.repr);
    WroteUnsettled(inter, g, inter.shapes, inter.repr, Targets(value));
    SettleLooks(inter, inter.shapes, inter.repr);
  }

  lemma InBoundsLength(slice: Slice<CrbValue>)
    requires InBounds(slice)
    ensures |Cells(slice)| == slice.len
  {
  }

  /** The list and the counts do not depend on the cells or on how many of them a slice shows. */
  method PopCellOnly(slice: Slice<CrbValue>, index: nat, ghost s: seq<Obj>, ghost g: map<Obj, set<Obj>>,
                     ghost sh: map<Obj, Shape>, ghost size: Sizes, ghost x: Obj, ghost header: Obj?,
                     ghost repr: set<object>)
    returns (value: CrbValue)
    requires slice.Valid() && index < slice.len && (forall o :: o in s ==> Told(o, g, sh, size)) && x in g
    requires x in s && x.u == ArrayObject(slice) && forall o :: o in s && o != x ==> o.u != ArrayObject(slice)
    requires Linked(header, s) && InRepr(repr, s, sh) && Counted(s, sh)
    modifies slice`len, slice.data.data
    ensures x in old(LooksOf(s)) && LooksOf(s) == PopLooks(old(LooksOf(s)), x, index)
    ensures value == old(LooksOf(s))[x].At(index)
    ensures forall o :: o in s ==> Wrote(o, g, sh, size, g[x])
    ensures Linked(header, s) && InRepr(repr, s, sh) && Counted(s, sh)
  {
    hide Told, Wrote, Owners, LooksOf, PopLooks;
    value := PopCell(slice, index, s, g, sh, size, x);
  }

  /** `CRB_array_pop` on the `k`th object; the counter is not concerned. */
  method ArrayPop(inter: Interp, slice: Slice<CrbValue>, index: nat, ghost k: nat) returns (value: CrbValue)
    requires inter.Valid() && k < |inter.objs| && inter.objs[k].u == ArrayObject(slice) && InBounds(slice)
    requires index < slice.len
    modifies inter`graph, inter`shapes, inter`repr, slice`len, slice.data.data
    ensures inter.Valid() && inter.shapes == old(inter.shapes) && inter.repr == old(inter.repr)
    ensures inter.objs[k] in old(LooksOf(inter.objs)) && value == old(LooksOf(inter.objs))[inter.objs[k]].At(index)
    ensures LooksOf(inter.objs) == PopLooks(old(LooksOf(inter.objs)), inter.objs[k], index)
  {
    hide *;
    ghost var x := inter.objs[k];
    BeforeStore(inter, x);
    OnlySlice(inter, k);
    ghost var g := inter.Graph();
    KeyLeads(g, x);
    value := PopCellOnly(slice, index, inter.objs, g, inter.shapes, inter.size, x, inter.header, inter.repr);
    WroteUnsettled(inter, g, inter.shapes, inter.repr, g[x]);
    SettleLooks(inter, inter.shapes, inter.repr);
  }

  lemma KeyLeads(g: map<Obj, set<Obj>>, x: Obj)
    requires Closed(g) && x in g.Keys
    ensures x in g && g[x] <= g.Keys
  {
  }

  /** The shapes once `x` shows `slice` where it is now. */
  ghost function Reshaped(sh: map<Obj, Shape>, x: Obj, slice: Slice<CrbValue>): map<Obj, Shape>
    reads slice
  {
    sh[x := Of(sh, x).(storage := slice.data, pos := slice.pos)]
  }

  lemma ReshapedOf(sh: map<Obj, Shape>, x: Obj, slice: Slice<CrbValue>, o: Obj)
    ensures Of(Reshaped(sh, x, slice), o) ==
      if o == x then Of(sh, x).(storage := slice.data, pos := slice.pos) else Of(sh, o)
  {
  }

  lemma {:induction false} ExtendFits(s: seq<Obj>, was: map<Obj, Look>, now: map<Obj, Look>, x: Obj, index: nat,
                                      value: CrbValue, g: map<Obj, set<Obj>>)
    requires x in s && Coherent(was) && InsertLooks(was, now, x, index, value) && was[x].u.ArrayObject?
    requires index <= was[x].len
    requires forall o :: o in s ==> o in was && o in g && Fits(was[o]) && was[o].Refs() == g[o]
    ensures var more := g[x] + Targets(value) + NewlyShown(was, now, x, index);
      forall o :: o in s ==> o in now && Fits(now[o]) && now[o].Refs() <= g[o] + more
    ensures x in now && NewlyShown(was, now, x, index) <= now[x].Refs()
  {
    forall o | o in s
      ensures o in now && Fits(now[o])
      ensures now[o].Refs() <= g[o] + (g[x] + Targets(value) + NewlyShown(was, now, x, index))
      ensures o == x ==> NewlyShown(was, now, x, index) <= now[x].Refs()
    {
      if was[x].pos + was[x].len < |was[x].cells| {
        InsertRefs(was[o], was[x], index, value, o == x);
      } else if o == x {
        RegrownByRefs(was[x], now[x], index, value);
      }
      hide Look.Refs, Look.Shows, Targets, GrownCap, Filled, Inserted, Uncovered;
    }
  }

  /** And what it means for the collector. */
  method ExtendWrote(slice: Slice<CrbValue>, index: nat, value: CrbValue, append: bool, ghost s: seq<Obj>,
                     ghost g: map<Obj, set<Obj>>, ghost sh: map<Obj, Shape>, ghost size: Sizes, ghost x: Obj)
    returns (ghost more: set<Obj>)
    requires slice.Valid() && Extensible(slice) && index <= slice.len && (append ==> index == slice.len)
    requires (forall o :: o in s ==> Told(o, g, sh, size)) && x in s && x in g && x.u == ArrayObject(slice)
    requires forall o :: o in s && o != x ==> o.u != ArrayObject(slice)
    modifies slice, slice.data, slice.data.data
    ensures InsertLooks(old(LooksOf(s)), LooksOf(s), x, index, value)
    ensures more == g[x] + Targets(value) + NewlyShown(old(LooksOf(s)), LooksOf(s), x, index)
    ensures forall o :: o in s ==> Wrote(o, g, Reshaped(sh, x, slice), size, more)
    ensures NewlyShown(old(LooksOf(s)), LooksOf(s), x, index) <= Kids(x.u)
    ensures old(slice.pos + slice.len < slice.data.data.Length) ==>
      slice.data == old(slice.data) && slice.pos == old(slice.pos) && slice.data.ref == old(slice.data.ref)
    ensures old(slice.pos + slice.len == slice.data.data.Length) ==>
      && fresh(slice.data) && fresh(slice.data.data) && slice.data.ref == 1 && slice.pos == 0
      && old(slice.data).ref == old(slice.data.ref) - 1
  {
    hide *;
    ghost var was := LooksOf(s);
    AllLooks(s, g, sh, size);
    LooksCoherent(s);
    LooksArray(s, x, slice);
    ExtendLooked(slice, index, value, append, s, x);
    more := g[x] + Targets(value) + NewlyShown(was, LooksOf(s), x, index);
    ExtendFits(s, was, LooksOf(s), x, index, value, g);
    forall o | o in s
      ensures o.u.ArrayObject? ==>
        Of(Reshaped(sh, x, slice), o) == Shape(size.ofObject, o.u.slice, o.u.slice.data, o.u.slice.pos)
      ensures !o.u.ArrayObject? ==> Of(Reshaped(sh, x, slice), o) == PlainShape(o.u, size)
    {
      ReshapedOf(sh, x, slice, o);
    }
    AllWrote(s, g, Reshaped(sh, x, slice), size, more);
    LookedKids(s, x);
  }

  lemma LookedKids(s: seq<Obj>, x: Obj)
    requires x in s
    ensures x in LooksOf(s) && LooksOf(s)[x].Refs() == Kids(x.u)
  {
    LookKids(x);
  }

  /** What that leaves of the list and the counts. */
  method ExtendCounted(slice: Slice<CrbValue>, index: nat, value: CrbValue, append: bool, ghost s: seq<Obj>,
                       ghost g: map<Obj, set<Obj>>, ghost sh: map<Obj, Shape>, ghost size: Sizes, ghost k: nat,
                       ghost header: Obj?, ghost repr: set<object>)
    returns (ghost more: set<Obj>)
    requires slice.Valid() && Extensible(slice) && index <= slice.len && (append ==> index == slice.len)
    requires (forall o :: o in s ==> Told(o, g, sh, size)) && k < |s| && s[k] in g && s[k].u == ArrayObject(slice)
    requires forall o :: o in s && o != s[k] ==> o.u != ArrayObject(slice)
    requires Linked(header, s) && Counted(s, sh) && slice.data in Storages(s, sh) && Storages(s, sh) <= repr
    modifies slice, slice.data, slice.data.data
    ensures InsertLooks(old(LooksOf(s)), LooksOf(s), s[k], index, value)
    ensures more == g[s[k]] + Targets(value) + NewlyShown(old(LooksOf(s)), LooksOf(s), s[k], index)
    ensures forall o :: o in s ==> Wrote(o, g, Reshaped(sh, s[k], slice), size, more)
    ensures NewlyShown(old(LooksOf(s)), LooksOf(s), s[k], index) <= Kids(s[k].u)
    ensures Linked(header, s) && Counted(s, Reshaped(sh, s[k], slice))
    ensures old(slice.pos + slice.len < slice.data.data.Length) ==>
      slice.data == old(slice.data) && slice.pos == old(slice.pos)
    ensures old(slice.pos + slice.len >= slice.data.data.Length) ==>
      fresh(slice.data) && fresh(slice.data.data) && slice.data.ref == 1 && slice.pos == 0
  {
    hide Told, Wrote, NoDuplicates, Owners, Segment, LooksOf, InsertLooks, NewlyShown, Targets, Kids;
    SelfTold(s, k, g, sh, size);
    Alone(s, k);
    ghost var was := slice.data;
    more := ExtendWrote(slice, index, value, append, s, g, sh, size, s[k]);
    forall a | a in Storages(s, sh)
      ensures a.ref == Owners(s, sh, a) - if slice.data != was && a == was then 1 else 0
    {
    }
    Recount(s, k, sh, slice, was);
  }

  lemma SelfTold(s: seq<Obj>, k: nat, g: map<Obj, set<Obj>>, sh: map<Obj, Shape>, size: Sizes)
    requires k < |s| && Told(s[k], g, sh, size) && s[k].u.ArrayObject?
    ensures Of(sh, s[k]) == Shape(size.ofObject, s[k].u.slice, s[k].u.slice.data, s[k].u.slice.pos)
  {
  }

  lemma {:induction false} Recount(s: seq<Obj>, k: nat, sh: map<Obj, Shape>, slice: Slice<CrbValue>,
                                   was: Array<CrbValue>)
    requires k < |s| && s[k] !in s[..k] + s[k + 1..] && Of(sh, s[k]).storage == was
    requires forall a :: a in Storages(s, sh) ==>
      a.ref == Owners(s, sh, a) - if slice.data != was && a == was then 1 else 0
    requires slice.data == was ==> slice.pos == Of(sh, s[k]).pos
    requires slice.data != was ==> slice.data !in Storages(s, sh) && slice.data.ref == 1
    ensures Counted(s, Reshaped(sh, s[k], slice))
    ensures Storages(s, Reshaped(sh, s[k], slice)) <= Storages(s, sh) + {slice.data}
  {
    var sh' := Reshaped(sh, s[k], slice);
    if slice.data == was {
      SameShapes(s, sh, sh', Sizes(0, 0, 0, 0));
    } else {
      var shape := Of(sh', s[k]);
      assert Moved(s, k, sh, shape);
      MovedStorages(s, k, sh, shape);
      forall a | a in Storages(s, sh')
        ensures a.ref == Owners(s, sh', a)
      {
        MovedOwners(s, k, sh, shape, a);
      }
    }
  }

  lemma Alone(s: seq<Obj>, k: nat)
    requires NoDuplicates(s) && k < |s|
    ensures s[k] !in s[..k] + s[k + 1..]
  {
  }

  lemma {:induction false} OnlySlice(inter: Interp, k: nat)
    requires inter.Valid() && k < |inter.objs| && inter.objs[k].u.ArrayObject?
    ensures forall o :: o in inter.objs && o != inter.objs[k] ==> o.u != inter.objs[k].u
    ensures inter.objs[k] in inter.objs && Storages(inter.objs, inter.shapes) <= inter.repr
    ensures inter.objs[k].u.slice in inter.repr && inter.objs[k] !in inter.objs[..k] + inter.objs[k + 1..]
    ensures forall o :: o in inter.objs && o.u.ArrayObject? && o != inter.objs[k] ==> o.u.slice.data.data in inter.repr
  {
    hide Closed, Spells, Segment, Counted;
    SourceSlice(inter, inter.objs[k]);
    Alone(inter.objs, k);
    forall o | o in inter.objs && o != inter.objs[k]
      ensures o.u != inter.objs[k].u
    {
      assert Of(inter.shapes, o).slice != Of(inter.shapes, inter.objs[k]).slice;
    }
  }

  lemma {:induction false} ReshapedApart(s: seq<Obj>, x: Obj, sh: map<Obj, Shape>, slice: Slice<CrbValue>)
    requires SlicesApart(s, sh)
    ensures SlicesApart(s, Reshaped(sh, x, slice))
  {
  }

  lemma {:induction false} ReshapedRepr(s: seq<Obj>, k: nat, sh: map<Obj, Shape>, slice: Slice<CrbValue>,
                                        repr: set<object>)
    requires k < |s| && s[k].u == ArrayObject(slice)
    requires forall o :: o in s ==> o in repr && (o.u.ArrayObject? ==> o.u.slice in repr)
    requires forall o :: o in s && o.u.ArrayObject? && o != s[k] ==> o.u.slice.data.data in repr
    requires Storages(s, Reshaped(sh, s[k], slice)) <= repr + {slice.data}
    ensures InRepr(repr + {slice.data, slice.data.data}, s, Reshaped(sh, s[k], slice))
  {
    hide Reshaped, Storages;
  }

  /** The heap with the longer array, but for the byte counter. */
  lemma {:induction false} ExtendUnsettled(inter: Interp, k: nat, slice: Slice<CrbValue>, g: map<Obj, set<Obj>>,
      sh: map<Obj, Shape>, repr: set<object>, more: set<Obj>)
    requires k < |inter.objs| && inter.objs[k].u == ArrayObject(slice)
    requires inter.objs[k] !in inter.objs[..k] + inter.objs[k + 1..]
    requires forall o :: o in inter.objs ==> Wrote(o, g, Reshaped(sh, inter.objs[k], slice), inter.size, more)
    requires g.Keys == (set o | o in inter.objs) && Closed(g) && inter.Roots() <= g.Keys
    requires inter !in repr && inter.sp <= |inter.stack| && SlicesApart(inter.objs, sh)
    requires Linked(inter.header, inter.objs) && Counted(inter.objs, Reshaped(sh, inter.objs[k], slice))
    requires forall o :: o in inter.objs ==> o in repr && (o.u.ArrayObject? ==> o.u.slice in repr)
    requires forall o :: o in inter.objs && o.u.ArrayObject? && o != inter.objs[k] ==> o.u.slice.data.data in repr
    requires Storages(inter.objs, Reshaped(sh, inter.objs[k], slice)) <= repr + {slice.data}
    ensures Unsettled(inter, Reshaped(sh, inter.objs[k], slice), repr + {slice.data, slice.data.data})
    ensures more <= g.Keys ==> NoneGone(inter.objs)
  {
    hide *;
    var sh', repr' := Reshaped(sh, inter.objs[k], slice), repr + {slice.data, slice.data.data};
    ReshapedApart(inter.objs, inter.objs[k], sh, slice);
    ReshapedRepr(inter.objs, k, sh, slice, repr);
    WroteUnsettled(inter, g, sh', repr', more);
  }

  lemma GoneBeyond(s: seq<Obj>, x: Obj, more: set<Obj>)
    requires NoneGone(s) && x in s && more <= Kids(x.u)
    ensures more <= set o | o in s
  {
    hide Kids;
  }

  /** What an append does to the bytes. */
  lemma {:induction false} AppendBytes(s: seq<Obj>, k: nat, sh: map<Obj, Shape>, slice: Slice<CrbValue>,
                                       was: Array<CrbValue>, size: Sizes)
    requires k < |s| && s[k] !in s[..k] + s[k + 1..] && Of(sh, s[k]).storage == was
    requires slice.data == was ==> slice.pos == Of(sh, s[k]).pos
    requires slice.data != was ==> slice.data !in Storages(s, sh)
    ensures Bytes(s, Reshaped(sh, s[k], slice), size) == Bytes(s, sh, size) +
      if slice.data == was then 0
      else size.ofValue * slice.data.data.Length - if Owners(s, sh, was) == 1 then size.ofValue * was.data.Length else 0
  {
    var sh' := Reshaped(sh, s[k], slice);
    if slice.data == was {
      SameShapes(s, sh, sh', size);
    } else {
      var shape := Of(sh', s[k]);
      assert Moved(s, k, sh, shape);
      MovedBytes(s, k, sh, shape, size);
    }
  }

  /** One storage for another in the counter; a shared one stays, or has been counted before. */
  function Exchanged(size: Sizes, refCount: int, cap: nat, refNow: int, capNow: nat): int {
    (if refNow == 1 then size.ofValue * capNow else 0) - (if refCount == 1 then size.ofValue * cap else 0)
  }

  /** `check_slice_state` */
  method CheckSliceState(inter: Interp, slice: Slice<CrbValue>, refArray: Array<CrbValue>, refCount: int, cap: nat)
    requires inter.Framed()
    modifies inter`heapSize
    ensures inter.Framed() && (inter.Valid() <==> old(inter.Valid()))
    ensures LooksOf(inter.objs) == old(LooksOf(inter.objs))
    ensures inter.heapSize == old(inter.heapSize)
      + (if slice.data == refArray then 0
         else Exchanged(inter.size, refCount, cap, slice.data.ref, slice.data.data.Length))
  {
    hide Interp.Valid, Interp.Framed, LooksOf;
    if slice.data == refArray {
      return;
    }
    if refCount == 1 {
      Charge(inter, -(inter.size.ofValue * cap));
    }
    if slice.data.ref == 1 {
      Charge(inter, inter.size.ofValue * slice.data.data.Length);
    }
  }

  lemma SliceBounds(slice: Slice<CrbValue>)
    requires slice.Valid()
    ensures slice.pos + slice.len <= slice.data.data.Length
  {
  }

  lemma {:induction false} InReprParts(inter: Interp)
    requires inter.Valid()
    ensures forall o :: o in inter.objs ==> o in inter.repr && (o.u.ArrayObject? ==> o.u.slice in inter.repr)
  {
    hide Linked, Closed, Spells, Counted, Storages, SlicesApart;
  }

  lemma {:induction false} ReshapedStorages(s: seq<Obj>, k: nat, sh: map<Obj, Shape>, slice: Slice<CrbValue>)
    requires k < |s| && s[k] !in s[..k] + s[k + 1..]
    ensures Storages(s, Reshaped(sh, s[k], slice)) <= Storages(s, sh) + {slice.data}
  {
    var p, q, sh' := s[..k], s[k + 1..], Reshaped(sh, s[k], slice);
    assert s == p + [s[k]] + q;
    StoragesWithout(p, s[k], q, sh);
    StoragesWithout(p, s[k], q, sh');
    SameShapes(p + q, sh, sh', Sizes(0, 0, 0, 0));
  }

  /** The longer array and the ghost state, before the counter is put right. */
  method ExtendSettled(inter: Interp, slice: Slice<CrbValue>, index: nat, value: CrbValue, append: bool, ghost k: nat)
    requires inter.Valid() && k < |inter.objs| && inter.objs[k].u == ArrayObject(slice)
    requires Extensible(slice) && index <= slice.len && (append ==> index == slice.len)
    requires Targets(value) <= set o | o in inter.objs
    modifies inter`graph, inter`shapes, inter`repr, slice, slice.data, slice.data.data
    ensures inter.Framed() && InsertLooks(old(LooksOf(inter.objs)), LooksOf(inter.objs), inter.objs[k], index, value)
    ensures inter.Valid() <==>
      NewlyShown(old(LooksOf(inter.objs)), LooksOf(inter.objs), inter.objs[k], index) <= set o | o in inter.objs
    ensures inter.shapes == Reshaped(old(inter.shapes), inter.objs[k], slice) && fresh(inter.repr - old(inter.repr))
    ensures old(slice.pos + slice.len < slice.data.data.Length) ==>
      slice.data == old(slice.data) && slice.pos == old(slice.pos)
    ensures old(slice.pos + slice.len >= slice.data.data.Length) ==>
      fresh(slice.data) && fresh(slice.data.data) && slice.data.ref == 1 && slice.pos == 0
  {
    hide *;
    ghost var x := inter.objs[k];
    OnlySlice(inter, k);
    BeforeStore(inter, x);
    InReprArray(inter, x);
    SliceBounds(slice);
    InReprParts(inter);
    ghost var g, sh, repr, was := inter.Graph(), inter.shapes, inter.repr, LooksOf(inter.objs);
    KeyLeads(g, x);
    ghost var more := ExtendCounted(slice, index, value, append, inter.objs, g, sh, inter.size, k, inter.header, repr);
    ghost var shown := NewlyShown(was, LooksOf(inter.objs), x, index);
    ReshapedStorages(inter.objs, k, sh, slice);
    ExtendUnsettled(inter, k, slice, g, sh, repr, more);
    if NoneGone(inter.objs) {
      GoneBeyond(inter.objs, x, shown);
    }
    assert NoneGone(inter.objs) <==> shown <= set o | o in inter.objs;
    SettleLooks(inter, Reshaped(sh, x, slice), repr + {slice.data, slice.data.data});
  }

  lemma {:induction false} BeforeAppend(inter: Interp, k: nat)
    requires inter.Valid() && k < |inter.objs| && inter.objs[k].u.ArrayObject?
    ensures var obj := inter.objs[k]; var slice := obj.u.slice;
      && slice.data.ref == Owners(inter.objs, inter.shapes, slice.data)
      && Of(inter.shapes, obj).storage == slice.data && Of(inter.shapes, obj).pos == slice.pos
      && slice.data in inter.repr && obj !in inter.objs[..k] + inter.objs[k + 1..]
      && slice.pos + slice.len <= slice.data.data.Length
    ensures Storages(inter.objs, inter.shapes) <= inter.repr
  {
    hide Linked, Closed, Spells, Storages, SlicesApart;
    SourceSlice(inter, inter.objs[k]);
    OnlySlice(inter, k);
    BeforeJoining(inter);
  }

  lemma {:induction false} AfterAppend(inter: Interp, k: nat, slice: Slice<CrbValue>, sh: map<Obj, Shape>,
                                       was: Array<CrbValue>, refCount: int, heapWas: int, bottom: bool)
    requires k < |inter.objs| && inter.objs[k] !in inter.objs[..k] + inter.objs[k + 1..]
    requires Of(sh, inter.objs[k]).storage == was && refCount == Owners(inter.objs, sh, was)
    requires inter.shapes == Reshaped(sh, inter.objs[k], slice)
    requires slice.data == was ==> slice.pos == Of(sh, inter.objs[k]).pos
    requires slice.data != was ==> slice.data !in Storages(inter.objs, sh) && slice.data.ref == 1 && slice.pos == 0
    requires inter.heapSize == heapWas + if slice.data == was then 0
      else Exchanged(inter.size, refCount, was.data.Length, slice.data.ref, slice.data.data.Length)
    requires bottom ==> forall o :: o in inter.objs ==> Of(sh, o).pos == 0
    ensures inter.Drift() == heapWas - Bytes(inter.objs, sh, inter.size) && (bottom ==> inter.AtBottom())
  {
    AppendBytes(inter.objs, k, sh, slice, was, inter.size);
  }

  lemma DriftIs(inter: Interp)
    ensures inter.Drift() == inter.heapSize - Bytes(inter.objs, inter.shapes, inter.size)
    ensures inter.AtBottom() ==> forall o :: o in inter.objs ==> Of(inter.shapes, o).pos == 0
  {
  }

  /** The longer array, and the counter put right to the byte. */
  method ExtendNow(inter: Interp, slice: Slice<CrbValue>, index: nat, value: CrbValue, append: bool, ghost k: nat)
    requires inter.Valid() && k < |inter.objs| && inter.objs[k].u == ArrayObject(slice)
    requires Extensible(slice) && index <= slice.len && (append ==> index == slice.len)
    requires Targets(value) <= set o | o in inter.objs
    modifies inter`heapSize, inter`graph, inter`shapes, inter`repr, slice, slice.data, slice.data.data
    ensures inter.Framed() && InsertLooks(old(LooksOf(inter.objs)), LooksOf(inter.objs), inter.objs[k], index, value)
    ensures inter.Valid() <==>
      NewlyShown(old(LooksOf(inter.objs)), LooksOf(inter.objs), inter.objs[k], index) <= set o | o in inter.objs
    ensures inter.Drift() == old(inter.Drift()) && (old(inter.AtBottom()) ==> inter.AtBottom())
    ensures fresh(inter.repr - old(inter.repr))
  {
    hide *;
    BeforeAppend(inter, k);
    DriftIs(inter);
    ghost var sh, heapWas, bottom := inter.shapes, inter.heapSize, inter.AtBottom();
    var arr, refCount, cap := slice.data, slice.data.ref, slice.data.data.Length;
    ExtendSettled(inter, slice, index, value, append, k);
    CheckSliceState(inter, slice, arr, refCount, cap);
    AfterAppend(inter, k, slice, sh, arr, refCount, heapWas, bottom);
  }

  /** `CRB_array_append` on the `k`th object; the counter stays exact to the byte. */
  method ArrayAppend(inter: Interp, slice: Slice<CrbValue>, value: CrbValue, ghost k: nat)
    requires inter.Valid() && k < |inter.objs| && inter.objs[k].u == ArrayObject(slice) && Extensible(slice)
    requires Targets(value) <= set o | o in inter.objs
    modifies inter`heapSize, inter`graph, inter`shapes, inter`repr, slice, slice.data, slice.data.data
    ensures inter.Valid() && fresh(inter.repr - old(inter.repr))
    ensures inter.Drift() == old(inter.Drift()) && (old(inter.AtBottom()) ==> inter.AtBottom())
    ensures AppendLooks(old(LooksOf(inter.objs)), LooksOf(inter.objs), inter.objs[k], value)
  {
    hide *;
    ghost var was := LooksOf(inter.objs);
    BeforeInsert(inter, slice, k);
    ExtendNow(inter, slice, slice.len, value, true, k);
    NothingShown(was, LooksOf(inter.objs), inter.objs[k], was[inter.objs[k]].len);
    InsertAtEnd(was, LooksOf(inter.objs), inter.objs[k], value);
  }

  lemma NothingShown(was: map<Obj, Look>, now: map<Obj, Look>, x: Obj, index: nat)
    requires x in was && (index == 0 || index == was[x].len)
    ensures NewlyShown(was, now, x, index) == {}
  {
  }

  lemma {:induction false} BeforeInsert(inter: Interp, slice: Slice<CrbValue>, k: nat)
    requires inter.Valid() && k < |inter.objs| && inter.objs[k].u == ArrayObject(slice)
    ensures var x := inter.objs[k]; var looks := LooksOf(inter.objs);
      x in looks && looks[x].len == slice.len && looks[x].pos == slice.pos && Fits(looks[x]) && x in inter.objs
      && looks[x].u == ArrayObject(slice) && looks[x].cells == slice.data.data[..]
  {
    hide Interp.Valid;
    SoundSlice(inter, inter.objs[k]);
    LooksArray(inter.objs, inter.objs[k], slice);
  }

  /** `CRB_array_insert` on the `k`th object, for an index within bounds. The counter stays exact to the byte, but
      the heap is valid afterwards only if the value goes to one of the ends or the cell behind the elements refers
      to nothing that has been freed. */
  method ArrayInsert(inter: Interp, slice: Slice<CrbValue>, index: nat, value: CrbValue, ghost k: nat)
    requires inter.Valid() && k < |inter.objs| && inter.objs[k].u == ArrayObject(slice) && Extensible(slice)
    requires index <= slice.len && Targets(value) <= set o | o in inter.objs
    modifies inter`heapSize, inter`graph, inter`shapes, inter`repr, slice, slice.data, slice.data.data
    ensures inter.Framed() && fresh(inter.repr - old(inter.repr))
    ensures index == 0 || index == old(slice.len) ==> inter.Valid()
    ensures 0 < index < old(slice.len) && old(slice.pos + slice.len < slice.data.data.Length) ==>
      (inter.Valid() <==> Targets(old(slice.data.data[slice.pos + slice.len])) <= set o | o in inter.objs)
    ensures inter.Valid() <==>
      NewlyShown(old(LooksOf(inter.objs)), LooksOf(inter.objs), inter.objs[k], index) <= set o | o in inter.objs
    ensures inter.Drift() == old(inter.Drift()) && (old(inter.AtBottom()) ==> inter.AtBottom())
    ensures InsertLooks(old(LooksOf(inter.objs)), LooksOf(inter.objs), inter.objs[k], index, value)
  {
    hide *;
    ghost var was, x := LooksOf(inter.objs), inter.objs[k];
    BeforeInsert(inter, slice, k);
    ExtendNow(inter, slice, index, value, false, k);
    ShownBehind(was, LooksOf(inter.objs), x, index, value);
  }

  /** With room behind the elements it is known beforehand what an insertion shows. */
  lemma ShownBehind(was: map<Obj, Look>, now: map<Obj, Look>, x: Obj, index: nat, value: CrbValue)
    requires InsertLooks(was, now, x, index, value)
    ensures index == 0 || index == was[x].len ==> NewlyShown(was, now, x, index) == {}
    ensures 0 < index < was[x].len && was[x].pos + was[x].len < |was[x].cells| ==>
      NewlyShown(was, now, x, index) == Targets(was[x].cells[was[x].pos + was[x].len])
  {
  }

  /** A new payload, seen by every object of the list. */
  method PutTold(obj: Obj, u: Payload, ghost s: seq<Obj>, ghost g: map<Obj, set<Obj>>, ghost sh: map<Obj, Shape>,
                 ghost size: Sizes)
    requires obj in s && !obj.u.ArrayObject? && !u.ArrayObject? && forall o :: o in s ==> Told(o, g, sh, size)
    modifies obj`u
    ensures obj.u == u && forall o :: o in s ==> Told(o, g[obj := PlainKids(u)], sh[obj := PlainShape(u, size)], size)
  {
    obj.u := u;
    forall o | o in s
      ensures Told(o, g[obj := PlainKids(u)], sh[obj := PlainShape(u, size)], size)
    {
      if o != obj {
        assert o.u == old(o.u) && Kids(o.u) == old(Kids(o.u)) && ShapeOf(o.u, size) == old(ShapeOf(o.u, size));
      }
    }
  }

  method PutCounted(obj: Obj, u: Payload, ghost s: seq<Obj>, ghost g: map<Obj, set<Obj>>, ghost sh: map<Obj, Shape>,
                    ghost size: Sizes, ghost sh': map<Obj, Shape>, ghost header: Obj?, ghost repr: set<object>)
    requires obj in s && !obj.u.ArrayObject? && !u.ArrayObject? && forall o :: o in s ==> Told(o, g, sh, size)
    requires Linked(header, s) && InRepr(repr, s, sh') && Counted(s, sh')
    modifies obj`u
    ensures obj.u == u && forall o :: o in s ==> Told(o, g[obj := PlainKids(u)], sh[obj := PlainShape(u, size)], size)
    ensures Linked(header, s) && InRepr(repr, s, sh') && Counted(s, sh')
  {
    hide Told, Owners, PlainKids, PlainShape, NoDuplicates;
    PutTold(obj, u, s, g, sh, size);
  }

  lemma {:induction false} PutShapes(s: seq<Obj>, k: nat, sh: map<Obj, Shape>, shape: Shape, more: nat, size: Sizes,
                                     repr: set<object>)
    requires k < |s| && s[k] !in s[..k] + s[k + 1..] && Of(sh, s[k]).storage == null
    requires shape == Of(sh, s[k]).(own := Of(sh, s[k]).own + more)
    requires Counted(s, sh) && SlicesApart(s, sh) && InRepr(repr, s, sh)
    ensures Counted(s, sh[s[k] := shape]) && SlicesApart(s, sh[s[k] := shape]) && InRepr(repr, s, sh[s[k] := shape])
    ensures Bytes(s, sh[s[k] := shape], size) == Bytes(s, sh, size) + more
  {
    hide Owners, Storages, Bytes;
    GrownBytes(s, k, sh, more, size);
  }

  lemma {:induction false} PlainTold(o: Obj, g: map<Obj, set<Obj>>, sh: map<Obj, Shape>, size: Sizes, u: Payload,
                                     more: nat)
    requires Told(o, g, sh, size) && !o.u.ArrayObject? && !u.ArrayObject?
    requires PlainShape(u, size).own == PlainShape(o.u, size).own + more
    ensures Of(sh, o).storage == null && Of(sh, o).pos == 0
    ensures PlainShape(u, size) == Of(sh, o).(own := Of(sh, o).own + more)
  {
  }

  lemma {:induction false} ValidParts(inter: Interp)
    requires inter.Valid()
    ensures Linked(inter.header, inter.objs) && InRepr(inter.repr, inter.objs, inter.shapes)
    ensures Counted(inter.objs, inter.shapes)
    ensures SlicesApart(inter.objs, inter.shapes) && inter.NoDangling() && NoDuplicates(inter.objs)
    ensures Spells(inter.Graph()) && Recorded(inter.objs, inter.shapes, inter.size)
    ensures inter !in inter.repr && inter.sp <= |inter.stack|
  {
    hide Spells, Recorded, Counted, InRepr, SlicesApart, Interp.NoDangling;
  }

  lemma {:induction false} BeforePut(inter: Interp, k: nat, u: Payload, more: nat)
    requires inter.Valid() && k < |inter.objs| && !inter.objs[k].u.ArrayObject? && !u.ArrayObject?
    requires PlainShape(u, inter.size).own == PlainShape(inter.objs[k].u, inter.size).own + more
    ensures var s, sh, obj := inter.objs, inter.shapes, inter.objs[k]; var sh' := sh[obj := PlainShape(u, inter.size)];
      && (forall o :: o in s ==> Told(o, inter.Graph(), sh, inter.size)) && obj in s
      && Linked(inter.header, s) && InRepr(inter.repr, s, sh') && Counted(s, sh') && SlicesApart(s, sh')
      && Bytes(s, sh', inter.size) == Bytes(s, sh, inter.size) + more
    ensures inter.Graph().Keys == (set o | o in inter.objs) && Closed(inter.Graph())
    ensures inter.Roots() <= inter.Graph().Keys
    ensures inter !in inter.repr && inter.sp <= |inter.stack| && Of(inter.shapes, inter.objs[k]).pos == 0
  {
    hide *;
    var s, sh, obj := inter.objs, inter.shapes, inter.objs[k];
    ValidParts(inter);
    BeforeJoining(inter);
    Alone(s, k);
    PlainTold(obj, inter.Graph(), sh, inter.size, u, more);
    PutShapes(s, k, sh, PlainShape(u, inter.size), more, inter.size, inter.repr);
  }

  lemma {:induction false} PutUnsettled(inter: Interp, obj: Obj, u: Payload, g: map<Obj, set<Obj>>, sh: map<Obj,
                                        Shape>, repr: set<object>)
    requires g.Keys == (set o | o in inter.objs) && Closed(g) && inter.Roots() <= g.Keys && PlainKids(u) <= g.Keys
    requires forall o :: o in inter.objs ==> Told(o, g[obj := PlainKids(u)], sh, inter.size)
    requires inter !in repr && inter.sp <= |inter.stack| && SlicesApart(inter.objs, sh)
    requires Linked(inter.header, inter.objs) && InRepr(repr, inter.objs, sh) && Counted(inter.objs, sh)
    ensures Unsettled(inter, sh, repr) && NoneGone(inter.objs)
  {
    hide Linked, Counted, SlicesApart, InRepr, AllTargets, MemberTargets, EnvTargets, ModuleTargets, Targets;
    forall o | o in inter.objs
      ensures Sound(o.u) && Kids(o.u) <= (set p | p in inter.objs) && Of(sh, o) == ShapeOf(o.u, inter.size)
    {
      assert Told(o, g[obj := PlainKids(u)], sh, inter.size);
    }
  }

  /** Stores a payload in the `k`th object, which is not an array. */
  method Put(inter: Interp, obj: Obj, u: Payload, ghost more: nat, ghost k: nat)
    requires inter.Valid() && k < |inter.objs| && obj == inter.objs[k] && !obj.u.ArrayObject? && !u.ArrayObject?
    requires PlainShape(u, inter.size).own == PlainShape(obj.u, inter.size).own + more
    requires PlainKids(u) <= set o | o in inter.objs
    modifies inter`graph, inter`shapes, inter`repr, obj`u
    ensures inter.Valid() && obj.u == u && inter.repr == old(inter.repr)
    ensures inter.Drift() == old(inter.Drift()) - more && (old(inter.AtBottom()) ==> inter.AtBottom())
  {
    hide *;
    BeforePut(inter, k, u, more);
    DriftIs(inter);
    ghost var g, sh, repr, bottom := inter.Graph(), inter.shapes, inter.repr, inter.AtBottom();
    ghost var sh' := sh[obj := PlainShape(u, inter.size)];
    PutCounted(obj, u, inter.objs, g, sh, inter.size, sh', inter.header, repr);
    PutUnsettled(inter, obj, u, g, sh', repr);
    Settle(inter, sh', repr);
    DriftIs(inter);
    AfterPut(inter, obj, u, sh, bottom);
  }

  lemma AfterPut(inter: Interp, obj: Obj, u: Payload, sh: map<Obj, Shape>, bottom: bool)
    requires inter.shapes == sh[obj := PlainShape(u, inter.size)] && !u.ArrayObject?
    requires bottom ==> forall o :: o in inter.objs ==> Of(sh, o).pos == 0
    ensures bottom ==> inter.AtBottom()
  {
  }

  lemma SafeAfter(inter: Interp, live: set<Obj>, drift: int, bottom: bool, was: int, now: bool)
    requires (forall o :: o in live ==> o in inter.objs) && was == drift && (bottom ==> now)
    requires inter.Drift() == was && (now ==> inter.AtBottom())
    ensures Safe(inter, live, drift, bottom)
  {
  }

  lemma SafeSplit(inter: Interp, live: set<Obj>, drift: int, bottom: bool)
    requires Safe(inter, live, drift, bottom)
    ensures (forall o :: o in live ==> o in inter.objs) && inter.Drift() == drift
    ensures bottom ==> inter.AtBottom()
  {
  }

  /** The members of an assoc with one more or one replaced. */
  lemma {:induction false} WithMember(members: map<int, Member>, name: int, m: Member, size: Sizes)
    ensures var u, u' := AssocObject(members), AssocObject(members[name := m]);
      && PlainShape(u', size).own == PlainShape(u, size).own + (if name in members then 0 else size.ofMember)
      && PlainKids(u') <= PlainKids(u) + Targets(m.value)
  {
    var all := members[name := m];
    if name !in members {
      assert all.Keys == members.Keys + {name};
      assert |all| == |members| + 1;
      Distribute(size.ofMember, |members|, 1);
    } else {
      assert all.Keys == members.Keys;
      assert |all| == |members|;
    }
  }

  lemma {:induction false} KidsListed(inter: Interp, obj: Obj)
    requires inter.Valid() && obj in inter.objs
    ensures Kids(obj.u) <= set o | o in inter.objs
    ensures !obj.u.ArrayObject? ==> Kids(obj.u) == PlainKids(obj.u)
  {
    hide Linked, SlicesApart, Spells, Counted, Recorded, Interp.NoDangling, Interp.Valid;
    ValidParts(inter);
    BeforeJoining(inter);
    assert Told(obj, inter.Graph(), inter.shapes, inter.size);
    assert obj in inter.Graph().Keys;
  }

  /** The insertion of `CRB_add_assoc_member`, and what it adds to the counter. */
  method AddMemberNow(inter: Interp, assoc: Obj, name: int, value: CrbValue, isFinal: bool, ghost k: nat,
                      ghost live: set<Obj>, ghost drift: int, ghost bottom: bool)
    requires inter.Valid() && Safe(inter, live, drift, bottom)
    requires k < |inter.objs| && assoc == inter.objs[k] && assoc.u.AssocObject?
    requires Targets(value) <= set o | o in inter.objs
    modifies inter`heapSize, inter`graph, inter`shapes, inter`repr, assoc`u
    ensures inter.Valid() && inter.repr == old(inter.repr) && Safe(inter, live, drift, bottom)
    ensures assoc.u == AssocObject(old(assoc.u.members)[name := Member(value, isFinal)])
  {
    hide *;
    SafeSplit(inter, live, drift, bottom);
    KidsListed(inter, assoc);
    WithMember(assoc.u.members, name, Member(value, isFinal), inter.size);
    ghost var was, now := inter.Drift(), inter.AtBottom();
    var isNew := name !in assoc.u.members;
    Put(inter, assoc, AssocObject(assoc.u.members[name := Member(value, isFinal)]),
        if isNew then inter.size.ofMember else 0, k);
    DriftIs(inter);
    if isNew {
      FramedValid(inter);
      Charge(inter, inter.size.ofMember);
    }
    DriftIs(inter);
    SafeAfter(inter, live, drift, bottom, was, now);
  }

  /** `CRB_add_assoc_member`; the assoc and the value have to be reachable. */
  method AddMember(inter: Interp, assoc: Obj, name: int, value: CrbValue, isFinal: bool)
    requires inter.Valid() && assoc in inter.Live() && assoc.u.AssocObject? && Targets(value) <= inter.Live()
    modifies inter`heapSize, inter`threshold, inter`header, inter`objs, inter`graph, inter`shapes, inter`repr, assoc`u
    modifies (set o | o in inter.objs)`prev, (set o | o in inter.objs)`next, (set o | o in inter.objs)`marked
    modifies Storages(inter.objs, inter.shapes)
    ensures inter.Valid() && inter.repr == old(inter.repr) && inter.objs == old(inter.Checked())
    ensures assoc.u == AssocObject(old(assoc.u.members)[name := Member(value, isFinal)])
    ensures Safe(inter, old(inter.Live()), old(inter.Drift() + inter.CheckLoss()), old(inter.AtBottom()))
  {
    hide *;
    ghost var live, drift, bottom := inter.Live(), inter.Drift() + inter.CheckLoss(), inter.AtBottom();
    CheckGc(inter);
    SafeSplit(inter, live, drift, bottom);
    assert assoc in inter.objs;
    ghost var k :| 0 <= k < |inter.objs| && inter.objs[k] == assoc;
    AddMemberNow(inter, assoc, name, value, isFinal, k, live, drift, bottom);
  }

  /** Stores into a scope chain object. */
  method SetScope(inter: Interp, obj: Obj, frame: Obj?, next: Obj?, ghost k: nat)
    requires inter.Valid() && k < |inter.objs| && obj == inter.objs[k] && obj.u.ScopeChain?
    requires One(frame) + One(next) <= set o | o in inter.objs
    modifies inter`graph, inter`shapes, inter`repr, obj`u
    ensures inter.Valid() && obj.u == ScopeChain(frame, next) && inter.repr == old(inter.repr)
    ensures inter.Drift() == old(inter.Drift()) && (old(inter.AtBottom()) ==> inter.AtBottom())
  {
    hide *;
    ScopeOwn(obj.u, frame, next, inter.size);
    Put(inter, obj, ScopeChain(frame, next), 0, k);
  }

  lemma ScopeOwn(u: Payload, frame: Obj?, next: Obj?, size: Sizes)
    requires u.ScopeChain?
    ensures PlainShape(ScopeChain(frame, next), size) == PlainShape(u, size)
    ensures PlainKids(ScopeChain(frame, next)) == One(frame) + One(next)
  {
  }
}
