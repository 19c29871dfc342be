/** The objects of the interpreter's heap and the recursive marking of a collection. */
module GcMark {
  import opened GcGraph
  import opened Slices

  /** A value as the collector sees it; `Plain` is every value without a pointer to an object. */
  datatype CrbValue = Plain(data: int) | Ref(target: Obj?) | Closure(scope: Obj?) | FakeMethod(receiver: Obj?)

  datatype Member = Member(value: CrbValue, isFinal: bool)

  /** `type` and `u` of an object. The members of an assoc are keyed by the rank of their name. */
  datatype Payload = ArrayObject(slice: Slice<CrbValue>)
                   | StringObject(length: nat, isLiteral: bool)
                   | AssocObject(members: map<int, Member>)
                   | ScopeChain(frame: Obj?, next: Obj?)
                   | NativePointer(pointer: int)

  class Obj {
    var u: Payload
    var marked: bool
    var prev: Obj?
    var next: Obj?

    constructor (u: Payload, next: Obj?)
      ensures this.u == u && !marked && prev == null && this.next == next
    {
      this.u, marked, prev, this.next := u, false, null, next;
    }
  }

  ghost function One(o: Obj?): set<Obj> {
    if o == null then {} else {o}
  }

  /** The object a value keeps alive. */
  ghost function Targets(v: CrbValue): set<Obj> {
    match v
    case Plain(_) => {}
    case Ref(o) => One(o)
    case Closure(o) => One(o)
    case FakeMethod(o) => One(o)
  }

  ghost function AllTargets(s: seq<CrbValue>): set<Obj> {
    set i, x | 0 <= i < |s| && x in Targets(s[i]) :: x
  }

  ghost function MemberTargets(members: map<int, Member>, names: set<int>): set<Obj> {
    set name, x | name in names && name in members && x in Targets(members[name].value) :: x
  }

  ghost predicate InBounds(slice: Slice<CrbValue>)
    reads slice
  {
    slice.pos + slice.len <= slice.data.data.Length
  }

  /** What an array shows. */
  ghost function Cells(slice: Slice<CrbValue>): seq<CrbValue>
    reads slice, slice.data.data
  {
    if InBounds(slice) then slice.data.data[slice.pos..slice.pos + slice.len] else []
  }

  ghost function Parts(u: Payload): set<object>
    reads if u.ArrayObject? then {u.slice} else {}
  {
    if u.ArrayObject? then {u.slice, u.slice.data.data} else {}
  }

  /** What an object that is not an array refers to. */
  ghost function PlainKids(u: Payload): set<Obj> {
    match u
    case AssocObject(members) => MemberTargets(members, members.Keys)
    case ScopeChain(frame, next) => One(frame) + One(next)
    case _ => {}
  }

  /** The objects an object refers to. */
  ghost function Kids(u: Payload): set<Obj>
    reads Parts(u)
  {
    if u.ArrayObject? then AllTargets(Cells(u.slice)) else PlainKids(u)
  }

  ghost predicate Sound(u: Payload)
    reads Parts(u)
  {
    u.ArrayObject? ==> InBounds(u.slice)
  }

  /** The graph is what the objects spell out. */
  ghost predicate Spells(g: map<Obj, set<Obj>>)
    reads g.Keys`u, set o, x | o in g.Keys && x in Parts(o.u) :: x
  {
    forall o :: o in g ==> Sound(o.u) && g[o] == Kids(o.u)
  }

  ghost function Marked(g: map<Obj, set<Obj>>): set<Obj>
    reads g.Keys`marked
  {
    set o | o in g.Keys && o.marked
  }

  lemma OneMore(s: seq<CrbValue>, i: nat)
    requires i < |s|
    ensures AllTargets(s[..i + 1]) == AllTargets(s[..i]) + Targets(s[i])
    ensures Targets(s[i]) <= AllTargets(s)
  {
    var t, t' := s[..i], s[..i + 1];
    assert forall j :: 0 <= j < i ==> t[j] == t'[j];
    assert t'[i] == s[i];
  }

  /** The successors of an object, read off its payload. */
  lemma Successors(g: map<Obj, set<Obj>>, obj: Obj)
    requires Spells(g) && obj in g
    ensures match obj.u
      case ArrayObject(slice) => InBounds(slice) && g[obj] == AllTargets(Cells(slice))
      case AssocObject(members) => g[obj] == MemberTargets(members, members.Keys)
      case ScopeChain(frame, next) => g[obj] == One(frame) + One(next)
      case _ => g[obj] == {}
  {
  }

  method SetMark(obj: Obj, ghost g: map<Obj, set<Obj>>)
    requires Spells(g) && obj in g
    modifies obj`marked
    ensures Spells(g) && Marked(g) == old(Marked(g)) + {obj} && obj.u == old(obj.u)
  {
    hide AllTargets, MemberTargets, PlainKids;
    obj.marked := true;
    forall o | o in g
      ensures Sound(o.u) && g[o] == Kids(o.u)
    {
      assert o.u == old(o.u) && Kids(o.u) == old(Kids(o.u));
    }
  }

  /** `gc_mark` */
  method Mark(obj: Obj?, ghost g: map<Obj, set<Obj>>)
    requires Closed(g) && Spells(g) && One(obj) <= g.Keys
    modifies g.Keys`marked
    ensures Spread(g, old(Marked(g)), Marked(g), One(obj)) && Spells(g) && old(Marked(g)) <= Marked(g)
    ensures obj != null ==> obj.marked
    decreases g.Keys - Marked(g), 0
  {
    ghost var m0 := Marked(g);
    if obj == null {
      SpreadNone(g, m0);
      return;
    }
    if obj.marked {
      SpreadMarked<Obj>(g, m0, obj);
      return;
    }
    hide Spread, Closed, Spells, Marked;
    SetMark(obj, g);
    ghost var m := Marked(g);
    assert m == m0 + {obj};
    MarkKids(obj, g);
    assert Spread(g, m, Marked(g), g[obj]);
    SpreadNode<Obj>(g, m0, Marked(g), obj);
    assert obj in Marked(g);
    IsMarked(g, obj);
  }

  lemma IsMarked(g: map<Obj, set<Obj>>, obj: Obj)
    requires obj in Marked(g)
    ensures obj.marked
  {
  }

  /** What `gc_mark` does once the object itself is marked. */
  method MarkKids(obj: Obj, ghost g: map<Obj, set<Obj>>)
    requires Closed(g) && Spells(g) && obj in g
    modifies g.Keys`marked
    ensures Spread(g, old(Marked(g)), Marked(g), g[obj]) && Spells(g) && old(Marked(g)) <= Marked(g)
    decreases g.Keys - Marked(g), 4
  {
    ghost var m := Marked(g);
    assert g[obj] <= g.Keys;
    Successors(g, obj);
    hide Spread, Closed, AllTargets, MemberTargets, Spells, Marked;
    match obj.u {
      case ArrayObject(slice) =>
        MarkCells(slice, Cells(slice), g);
      case AssocObject(members) =>
        MarkMembers(members, g);
      case ScopeChain(frame, next) =>
        Mark(frame, g);
        ghost var m1 := Marked(g);
        Mark(next, g);
        SpreadBoth(g, m, m1, Marked(g), One(frame), One(next));
      case _ =>
        SpreadNone(g, m);
    }
  }

  /** The values an array shows. */
  method MarkCells(slice: Slice<CrbValue>, ghost view: seq<CrbValue>, ghost g: map<Obj, set<Obj>>)
    requires Closed(g) && Spells(g) && InBounds(slice) && Cells(slice) == view && AllTargets(view) <= g.Keys
    modifies g.Keys`marked
    ensures Spread(g, old(Marked(g)), Marked(g), AllTargets(view)) && Spells(g) && old(Marked(g)) <= Marked(g)
    decreases g.Keys - Marked(g), 2
  {
    ghost var m := Marked(g);
    SpreadNone(g, m);
    assert AllTargets(view[..0]) == {};
    hide Spread, Closed, AllTargets, Spells, Marked;
    for i := 0 to slice.len
      invariant Spread(g, m, Marked(g), AllTargets(view[..i])) && Spells(g) && m <= Marked(g)
    {
      OneMore(view, i);
      ghost var m1 := Marked(g);
      var value := slice.data.data[slice.pos + i];
      assert value == view[i];
      MarkValue(value, g);
      SpreadBoth(g, m, m1, Marked(g), AllTargets(view[..i]), Targets(view[i]));
    }
    assert view[..slice.len] == view;
  }

  method Pick<T(==)>(s: set<T>) returns (x: T)
    requires s != {}
    ensures x in s
  {
    x :| x in s;
  }

  lemma MemberMore(members: map<int, Member>, done: set<int>, name: int)
    requires name in members
    ensures MemberTargets(members, done + {name}) == MemberTargets(members, done) + Targets(members[name].value)
    ensures Targets(members[name].value) <= MemberTargets(members, members.Keys)
  {
  }

  /** `_gc_mark_every_assoc_member` */
  method MarkMember(members: map<int, Member>, name: int, ghost done: set<int>, ghost m: set<Obj>, ghost g: map<Obj,
                    set<Obj>>)
    requires Closed(g) && Spells(g) && MemberTargets(members, members.Keys) <= g.Keys
    requires name in members && Spread(g, m, Marked(g), MemberTargets(members, done))
    modifies g.Keys`marked
    ensures Spread(g, m, Marked(g), MemberTargets(members, done + {name})) && Spells(g)
    ensures old(Marked(g)) <= Marked(g)
    decreases g.Keys - Marked(g), 2
  {
    hide Spread, Closed, MemberTargets, Spells, Marked;
    ghost var m1 := Marked(g);
    MemberMore(members, done, name);
    MarkValue(members[name].value, g);
    SpreadBoth(g, m, m1, Marked(g), MemberTargets(members, done), Targets(members[name].value));
  }

  /** The members of an assoc, in any order. */
  method MarkMembers(members: map<int, Member>, ghost g: map<Obj, set<Obj>>)
    requires Closed(g) && Spells(g) && MemberTargets(members, members.Keys) <= g.Keys
    modifies g.Keys`marked
    ensures Spread(g, old(Marked(g)), Marked(g), MemberTargets(members, members.Keys)) && Spells(g)
    ensures old(Marked(g)) <= Marked(g)
    decreases g.Keys - Marked(g), 3
  {
    ghost var m, done := Marked(g), {};
    SpreadNone(g, m);
    assert MemberTargets(members, {}) == {};
    var todo := members.Keys;
    assert todo + done == members.Keys && todo !! done;
    hide Spread, Closed, MemberTargets, Spells, Marked;
    while todo != {}
      invariant todo !! done && todo + done == members.Keys && Spells(g) && m <= Marked(g)
      invariant Spread(g, m, Marked(g), MemberTargets(members, done))
      decreases todo
    {
      var name := Pick(todo);
      MarkMember(members, name, done, m, g);
      todo, done := todo - {name}, done + {name};
    }
    assert done == members.Keys;
  }

  /** `gc_mark_value` */
  method MarkValue(v: CrbValue, ghost g: map<Obj, set<Obj>>)
    requires Closed(g) && Spells(g) && Targets(v) <= g.Keys
    modifies g.Keys`marked
    ensures Spread(g, old(Marked(g)), Marked(g), Targets(v)) && Spells(g) && old(Marked(g)) <= Marked(g)
    ensures v.Ref? && v.target != null ==> v.target.marked
    ensures v.Closure? && v.scope != null ==> v.scope.marked
    ensures v.FakeMethod? && v.receiver != null ==> v.receiver.marked
    decreases g.Keys - Marked(g), 1
  {
    match v {
      case Plain(_) =>
        SpreadNone(g, Marked(g));
      case Ref(o) =>
        Mark(o, g);
      case Closure(o) =>
        if o != null {
          Mark(o, g);
        } else {
          SpreadNone(g, Marked(g));
        }
      case FakeMethod(o) =>
        Mark(o, g);
    }
  }
}
