/** The object list, marking from the roots, sweeping, and the collection as a whole. */
module GcHeap {
  import opened GcGraph
  import opened GcMark
  import opened GcAccount
  import opened Slices

  const HEAP_THRESHOLD_SIZE := 1024 * 256

  /** A local environment: its scope chain and the objects a native function holds. */
  datatype Env = Env(scopeChain: Obj?, refs: seq<Obj?>)

  // ---------------------------------------------------------------- the list

  ghost function First(s: seq<Obj>): Obj? {
    if s == [] then null else s[0]
  }

  ghost function Last(s: seq<Obj>): Obj? {
    if s == [] then null else s[|s| - 1]
  }

  ghost predicate NoDuplicates(s: seq<Obj>) {
    forall i, j :: 0 <= i < j < |s| ==> s[i] != s[j]
  }

  /** A stretch of the list, with the objects just before and just after it. */
  ghost predicate Segment(s: seq<Obj>, before: Obj?, after: Obj?)
    reads s
  {
    forall i {:trigger s[i].prev} {:trigger s[i].next} :: 0 <= i < |s| ==>
      s[i].prev == (if i == 0 then before else s[i - 1]) && s[i].next == (if i == |s| - 1 then after else s[i + 1])
  }

  /** `prev` and `next` link the objects in this order. */
  ghost predicate Linked(header: Obj?, s: seq<Obj>)
    reads s
  {
    NoDuplicates(s) && header == First(s) && Segment(s, null, null)
  }

  /** The list cut in front of `t`. */
  ghost predicate Cut(header: Obj?, s: seq<Obj>, t: seq<Obj>)
    reads s, t
  {
    && NoDuplicates(s + t) && header == First(s + t)
    && Segment(s, null, First(t)) && Segment(t, Last(s), null)
  }

  lemma CutAll(header: Obj?, s: seq<Obj>)
    ensures Cut(header, [], s) <==> Linked(header, s)
    ensures Cut(header, s, []) <==> Linked(header, s)
  {
    assert [] + s == s && s + [] == s;
  }

  lemma Behead(x: Obj, t: seq<Obj>, before: Obj?)
    ensures Segment([x] + t, before, null) <==> x.prev == before && x.next == First(t) && Segment(t, x, null)
  {
    var u := [x] + t;
    assert u[0] == x && |u| == |t| + 1;
    assert forall k :: 0 <= k < |t| ==> u[k + 1] == t[k];
    if Segment(u, before, null) {
      assert x.prev == before && x.next == First(t);
      forall k | 0 <= k < |t|
        ensures t[k].prev == (if k == 0 then x else t[k - 1])
        ensures t[k].next == (if k == |t| - 1 then null else t[k + 1])
      {
        assert t[k] == u[k + 1];
      }
    }
    if x.prev == before && x.next == First(t) && Segment(t, x, null) {
      forall k | 0 <= k < |u|
        ensures u[k].prev == (if k == 0 then before else u[k - 1])
        ensures u[k].next == (if k == |u| - 1 then null else u[k + 1])
      {
        assert k > 0 ==> u[k] == t[k - 1];
      }
    }
  }

  lemma Append(s: seq<Obj>, x: Obj, after: Obj?)
    requires Segment(s, null, x) && x.prev == Last(s) && x.next == after
    ensures Segment(s + [x], null, after)
  {
    var u := s + [x];
    forall k | 0 <= k < |u|
      ensures u[k].prev == (if k == 0 then null else u[k - 1])
      ensures u[k].next == (if k == |u| - 1 then after else u[k + 1])
    {
      assert k < |s| ==> u[k] == s[k];
    }
  }

  /** Moving the cut past one object. */
  lemma CutNext(header: Obj?, s: seq<Obj>, x: Obj, t: seq<Obj>)
    requires Cut(header, s, [x] + t)
    ensures Cut(header, s + [x], t) && x.next == First(t)
  {
    assert s + ([x] + t) == s + [x] + t;
    Behead(x, t, Last(s));
    Append(s, x, First(t));
  }

  /** The objects of `s` that are in `keep`, in order. */
  ghost function Keep(s: seq<Obj>, keep: set<Obj>): seq<Obj> {
    if s == [] then []
    else Keep(s[..|s| - 1], keep) + if s[|s| - 1] in keep then [s[|s| - 1]] else []
  }

  lemma {:induction false} KeepIn(s: seq<Obj>, keep: set<Obj>, o: Obj)
    ensures o in Keep(s, keep) <==> o in s && o in keep
  {
    if s != [] {
      KeepIn(s[..|s| - 1], keep, o);
      assert s == s[..|s| - 1] + [s[|s| - 1]];
    }
  }

  lemma {:induction false} SurvivorsOnly(all: seq<Obj>, live: set<Obj>)
    ensures forall o :: o in Keep(all, live) <==> o in all && o in live
  {
    forall o
      ensures o in Keep(all, live) <==> o in all && o in live
    {
      KeepIn(all, live, o);
    }
  }

  // ---------------------------------------------------------------- the roots

  ghost function RefTargets(refs: seq<Obj?>): set<Obj> {
    set i, x | 0 <= i < |refs| && x in One(refs[i]) :: x
  }

  ghost function EnvTargets(envs: seq<Env>): set<Obj> {
    set i, x | 0 <= i < |envs| && x in One(envs[i].scopeChain) + RefTargets(envs[i].refs) :: x
  }

  ghost function ModuleTargets(modules: seq<seq<CrbValue>>): set<Obj> {
    set i, x | 0 <= i < |modules| && x in AllTargets(modules[i]) :: x
  }

  lemma OneMoreRef(refs: seq<Obj?>, i: nat)
    requires i < |refs|
    ensures RefTargets(refs[..i + 1]) == RefTargets(refs[..i]) + One(refs[i])
  {
    assert forall j :: 0 <= j < i ==> refs[..i][j] == refs[..i + 1][j];
    assert refs[..i + 1][i] == refs[i];
  }

  lemma OneMoreEnv(envs: seq<Env>, i: nat)
    requires i < |envs|
    ensures EnvTargets(envs[..i + 1]) == EnvTargets(envs[..i]) + (One(envs[i].scopeChain) + RefTargets(envs[i].refs))
  {
    assert forall j :: 0 <= j < i ==> envs[..i][j] == envs[..i + 1][j];
    assert envs[..i + 1][i] == envs[i];
  }

  lemma OneMoreModule(modules: seq<seq<CrbValue>>, i: nat)
    requires i < |modules|
    ensures ModuleTargets(modules[..i + 1]) == ModuleTargets(modules[..i]) + AllTargets(modules[i])
  {
    assert forall j :: 0 <= j < i ==> modules[..i][j] == modules[..i + 1][j];
    assert modules[..i + 1][i] == modules[i];
  }

  /** The values of a table of variables, or the lower part of the stack. */
  method MarkValues(values: seq<CrbValue>, ghost g: map<Obj, set<Obj>>)
    requires Closed(g) && Spells(g) && AllTargets(values) <= g.Keys
    modifies g.Keys`marked
    ensures Spread(g, old(Marked(g)), Marked(g), AllTargets(values)) && Spells(g)
  {
    ghost var m := Marked(g);
    SpreadNone(g, m);
    assert AllTargets(values[..0]) == {};
    for i := 0 to |values|
      invariant Spread(g, m, Marked(g), AllTargets(values[..i])) && Spells(g)
    {
      OneMore(values, i);
      hide Spread, Closed, AllTargets, Spells, Marked;
      ghost var m1 := Marked(g);
      MarkValue(values[i], g);
      SpreadBoth(g, m, m1, Marked(g), AllTargets(values[..i]), Targets(values[i]));
    }
    assert values[..|values|] == values;
  }

  /** `gc_mark_ref_in_native_method` */
  method MarkRefs(refs: seq<Obj?>, ghost g: map<Obj, set<Obj>>)
    requires Closed(g) && Spells(g) && RefTargets(refs) <= g.Keys
    modifies g.Keys`marked
    ensures Spread(g, old(Marked(g)), Marked(g), RefTargets(refs)) && Spells(g)
  {
    ghost var m := Marked(g);
    SpreadNone(g, m);
    assert RefTargets(refs[..0]) == {};
    for i := 0 to |refs|
      invariant Spread(g, m, Marked(g), RefTargets(refs[..i])) && Spells(g)
    {
      OneMoreRef(refs, i);
      hide Spread, Closed, RefTargets, Spells, Marked;
      ghost var m1 := Marked(g);
      Mark(refs[i], g);
      SpreadBoth(g, m, m1, Marked(g), RefTargets(refs[..i]), One(refs[i]));
    }
    assert refs[..|refs|] == refs;
  }

  /** The variables of every module. */
  method MarkModules(modules: seq<seq<CrbValue>>, ghost g: map<Obj, set<Obj>>)
    requires Closed(g) && Spells(g) && ModuleTargets(modules) <= g.Keys
    modifies g.Keys`marked
    ensures Spread(g, old(Marked(g)), Marked(g), ModuleTargets(modules)) && Spells(g)
  {
    ghost var m := Marked(g);
    SpreadNone(g, m);
    assert ModuleTargets(modules[..0]) == {};
    for i := 0 to |modules|
      invariant Spread(g, m, Marked(g), ModuleTargets(modules[..i])) && Spells(g)
    {
      OneMoreModule(modules, i);
      hide Spread, Closed, AllTargets, ModuleTargets, Spells, Marked;
      ghost var m1 := Marked(g);
      MarkValues(modules[i], g);
      SpreadBoth(g, m, m1, Marked(g), ModuleTargets(modules[..i]), AllTargets(modules[i]));
    }
    assert modules[..|modules|] == modules;
  }

  /** The chain of local environments. */
  method MarkEnvs(envs: seq<Env>, ghost g: map<Obj, set<Obj>>)
    requires Closed(g) && Spells(g) && EnvTargets(envs) <= g.Keys
    modifies g.Keys`marked
    ensures Spread(g, old(Marked(g)), Marked(g), EnvTargets(envs)) && Spells(g)
  {
    ghost var m := Marked(g);
    SpreadNone(g, m);
    assert EnvTargets(envs[..0]) == {};
    for i := 0 to |envs|
      invariant Spread(g, m, Marked(g), EnvTargets(envs[..i])) && Spells(g)
    {
      OneMoreEnv(envs, i);
      hide Spread, Closed, RefTargets, EnvTargets, Spells, Marked;
      ghost var m1 := Marked(g);
      Mark(envs[i].scopeChain, g);
      ghost var m2 := Marked(g);
      MarkRefs(envs[i].refs, g);
      SpreadBoth(g, m1, m2, Marked(g), One(envs[i].scopeChain), RefTargets(envs[i].refs));
      SpreadBoth(g, m, m1, Marked(g), EnvTargets(envs[..i]), One(envs[i].scopeChain) + RefTargets(envs[i].refs));
    }
    assert envs[..|envs|] == envs;
  }

  /** If a value refers to an object, that is one of these: a reference, a closure by its scope, and a method value by
      the object it belongs to. */
  ghost predicate LeadsInto(v: CrbValue, s: set<Obj>) {
    match v
    case Plain(_) => true
    case Ref(o) => o == null || o in s
    case Closure(o) => o == null || o in s
    case FakeMethod(o) => o == null || o in s
  }

  lemma LeadsTargets(v: CrbValue, s: set<Obj>)
    ensures LeadsInto(v, s) <==> Targets(v) <= s
  {
  }

  // ---------------------------------------------------------------- the heap

  ghost function OwnStorage(u: Payload): set<Array<CrbValue>>
    reads if u.ArrayObject? then {u.slice} else {}
  {
    if u.ArrayObject? then {u.slice.data} else {}
  }

  /** Every storage counts the arrays of the list that are on it. */
  ghost predicate Counted(s: seq<Obj>, sh: map<Obj, Shape>)
    reads Storages(s, sh)
  {
    forall a :: a in Storages(s, sh) ==> a.ref == Owners(s, sh, a)
  }

  /** The object at `i` is the last of its storage to go in a sweep that keeps only `live`, and
      its slice does not start at the bottom of the storage. */
  ghost predicate Careless(s: seq<Obj>, sh: map<Obj, Shape>, live: set<Obj>, i: nat)
  {
    && i < |s| && s[i] !in live && Of(sh, s[i]).storage != null && Of(sh, s[i]).pos > 0
    && (forall j :: 0 <= j < |s| && j != i && Of(sh, s[j]).storage == Of(sh, s[i]).storage ==> s[j] !in live && j < i)
  }

  /** The cells below the slices of those objects, among the first `n` of the list. */
  ghost function Stranded(s: seq<Obj>, sh: map<Obj, Shape>, live: set<Obj>, n: nat): nat
    requires n <= |s|
  {
    if n == 0 then 0
    else Stranded(s, sh, live, n - 1) + if Careless(s, sh, live, n - 1) then Of(sh, s[n - 1]).pos else 0
  }

  lemma {:induction false} NoneStranded(s: seq<Obj>, sh: map<Obj, Shape>, live: set<Obj>, n: nat)
    requires n <= |s|
    ensures Stranded(s, sh, live, n) == 0 <==> forall i: nat :: i < n ==> !Careless(s, sh, live, i)
  {
    if n > 0 {
      NoneStranded(s, sh, live, n - 1);
    }
  }

  /** No two arrays share a slice; they may share a storage. */
  ghost predicate SlicesApart(s: seq<Obj>, sh: map<Obj, Shape>)
  {
    forall o, p :: o in s && p in s && o != p && Of(sh, o).slice != null ==> Of(sh, o).slice != Of(sh, p).slice
  }

  /** Everything the list leads to is in `repr`. */
  ghost predicate InRepr(repr: set<object>, s: seq<Obj>, sh: map<Obj, Shape>)
    reads repr
  {
    && Storages(s, sh) <= repr
    && forall o :: o in s ==> o in repr && (o.u.ArrayObject? ==> o.u.slice in repr && o.u.slice.data.data in repr)
  }

  /** The list, the graph and the shapes are those of the objects, and the references are counted. */
  ghost predicate Intact(repr: set<object>, header: Obj?, s: seq<Obj>, g: map<Obj, set<Obj>>, sh: map<Obj, Shape>,
                         size: Sizes)
    reads repr
  {
    && InRepr(repr, s, sh) && Linked(header, s)
    && g.Keys == (set o | o in s) && Spells(g) && Recorded(s, sh, size) && Counted(s, sh)
  }

  class Interp {
    const size: Sizes
    var heapSize: int
    var threshold: int
    var header: Obj?
    var globals: seq<CrbValue>
    var modules: seq<seq<CrbValue>>
    var envs: seq<Env>
    var stack: seq<CrbValue>
    var sp: nat
    var exception: CrbValue
    ghost var objs: seq<Obj>  // the objects allocated and not yet freed, newest first

    ghost var graph: map<Obj, set<Obj>>  // what they refer to
    ghost var shapes: map<Obj, Shape>  // what they count for
    ghost var repr: set<object>  // the objects with their slices and storages

    /** An interpreter that has not run anything. */
    constructor (size: Sizes)
      ensures Valid() && objs == [] && heapSize == 0 && Drift() == 0 && AtBottom() && repr == {}
      ensures this.size == size && shapes == map[]
      ensures globals == [] && modules == [] && envs == [] && sp == 0 && exception == Plain(0)
    {
      this.size := size;
      heapSize, threshold, header := 0, HEAP_THRESHOLD_SIZE, null;
      globals, modules, envs, stack, sp, exception := [], [], [], [], 0, Plain(0);
      objs, graph, shapes, repr := [], map[], map[], {};
    }

    /** The five kinds of root. */
    ghost function Roots(): set<Obj>
      reads this`globals, this`modules, this`envs, this`stack, this`sp, this`exception
    {
      AllTargets(globals) + ModuleTargets(modules) + EnvTargets(envs) + AllTargets(Pushed()) + Targets(exception)
    }

    /** Variables, modules, environments, the stack and the current exception lead to these objects only. */
    ghost predicate RootsLeadInto(s: set<Obj>)
      reads this`globals, this`modules, this`envs, this`stack, this`sp, this`exception
    {
      && (forall i :: 0 <= i < |globals| ==> LeadsInto(globals[i], s))
      && (forall i, k :: 0 <= i < |modules| && 0 <= k < |modules[i]| ==> LeadsInto(modules[i][k], s))
      && (forall i :: 0 <= i < |envs| && envs[i].scopeChain != null ==> envs[i].scopeChain in s)
      && (forall i, k :: 0 <= i < |envs| && 0 <= k < |envs[i].refs| && envs[i].refs[k] != null ==> envs[i].refs[k] in s)
      && (forall i :: 0 <= i < sp && i < |stack| ==> LeadsInto(stack[i], s))
      && LeadsInto(exception, s)
    }

    lemma RootsLead(s: set<Obj>)
      requires sp <= |stack| && Roots() <= s
      ensures RootsLeadInto(s)
    {
      forall i | 0 <= i < |globals|
        ensures LeadsInto(globals[i], s)
      {
        LeadsTargets(globals[i], s);
        assert forall x :: x in Targets(globals[i]) ==> x in AllTargets(globals);
      }
      forall i, k | 0 <= i < |modules| && 0 <= k < |modules[i]|
        ensures LeadsInto(modules[i][k], s)
      {
        LeadsTargets(modules[i][k], s);
        assert forall x :: x in Targets(modules[i][k]) ==> x in AllTargets(modules[i]);
        assert forall x :: x in AllTargets(modules[i]) ==> x in ModuleTargets(modules);
      }
      forall i | 0 <= i < sp
        ensures LeadsInto(stack[i], s)
      {
        LeadsTargets(stack[i], s);
        assert stack[i] == Pushed()[i];
        assert forall x :: x in Targets(stack[i]) ==> x in AllTargets(Pushed());
      }
      LeadsTargets(exception, s);
      hide AllTargets, ModuleTargets, LeadsInto, Targets;
      EnvsLead(s);
    }

    lemma EnvsLead(listed: set<Obj>)
      requires EnvTargets(envs) <= listed
      ensures forall i :: 0 <= i < |envs| && envs[i].scopeChain != null ==> envs[i].scopeChain in listed
      ensures forall i, k :: 0 <= i < |envs| && 0 <= k < |envs[i].refs| && envs[i].refs[k] != null ==>
        envs[i].refs[k] in listed
    {
      forall i | 0 <= i < |envs|
        ensures envs[i].scopeChain != null ==> envs[i].scopeChain in listed
        ensures forall k :: 0 <= k < |envs[i].refs| && envs[i].refs[k] != null ==> envs[i].refs[k] in listed
      {
        assert forall x :: x in One(envs[i].scopeChain) + RefTargets(envs[i].refs) ==> x in EnvTargets(envs);
        forall k | 0 <= k < |envs[i].refs| && envs[i].refs[k] != null
          ensures envs[i].refs[k] in listed
        {
          assert envs[i].refs[k] in One(envs[i].refs[k]);
          assert envs[i].refs[k] in RefTargets(envs[i].refs);
        }
      }
    }

    /** The stack below the stack pointer. */
    ghost function Pushed(): seq<CrbValue>
      reads this`stack, this`sp
    {
      if sp <= |stack| then stack[..sp] else []
    }

    /** Unlinks the object between `s` and `t`. */
    method Unlink(obj: Obj, ghost s: seq<Obj>, ghost t: seq<Obj>)
      requires Cut(header, s, [obj] + t)
      modifies this`header, (set o | o in s + t)`prev, (set o | o in s + t)`next
      ensures Cut(header, s, t) && obj.next == First(t)
    {
      Around(header, s, obj, t);
      if obj.prev != null {
        obj.prev.next := obj.next;
      } else {
        header := obj.next;
      }
      if obj.next != null {
        obj.next.prev := obj.prev;
      }
      assert Segment(s, null, First(t)) && Segment(t, Last(s), null);
    }

    /** Unlinking changes nothing that is counted. */
    method UnlinkOnly(obj: Obj, ghost s: seq<Obj>, ghost t: seq<Obj>, ghost sh: map<Obj, Shape>)
      requires Cut(header, s, [obj] + t)
      requires Counted(s + [obj] + t, sh) && Recorded(s + [obj] + t, sh, size)
      modifies this`header, (set o | o in s + t)`prev, (set o | o in s + t)`next
      ensures Cut(header, s, t) && obj.next == First(t)
      ensures Counted(s + [obj] + t, sh) && Recorded(s + [obj] + t, sh, size)
    {
      hide Cut;
      Unlink(obj, s, t);
    }

    /** `gc_dispose_object` on the object between `s` and `t`. */
    method Dispose(obj: Obj, ghost s: seq<Obj>, ghost t: seq<Obj>, ghost sh: map<Obj, Shape>) returns (ghost lost: nat)
      requires objs == s + [obj] + t && Counted(objs, sh)
      requires ShapeOf(obj.u, size) == Of(sh, obj) && Sound(obj.u)
      modifies this`heapSize, this`objs, OwnStorage(obj.u)
      ensures objs == s + t && Counted(objs, sh)
      ensures heapSize - Bytes(objs, sh, size) == old(heapSize) - Bytes(old(objs), sh, size) + lost
      ensures lost == if Of(sh, obj).storage != null && Owners(old(objs), sh, Of(sh, obj).storage) == 1
                      then size.ofValue * Of(sh, obj).pos else 0
    {
      hide Bytes, Owners;
      WithoutObject(s, obj, t, sh, size);
      Recounted(s, obj, t, sh);
      lost := 0;
      match obj.u {
        case ArrayObject(slice) =>
          if slice.data.ref == 1 {
            heapSize := heapSize - size.ofValue * slice.Cap();
            lost := size.ofValue * slice.pos;
          }
          var _ := slice.Close();
        case StringObject(length, isLiteral) =>
          if !isLiteral {
            heapSize := heapSize - size.ofChar * (length + 1);
          }
        case AssocObject(members) =>
          heapSize := heapSize - size.ofMember * |members|;
        case _ =>
      }
      heapSize := heapSize - size.ofObject;
      objs := s + t;
    }

    /** Disposing changes nothing that is recorded of the other objects. */
    method DisposeRecorded(obj: Obj, ghost s: seq<Obj>, ghost t: seq<Obj>, ghost sh: map<Obj, Shape>)
      returns (ghost lost: nat)
      requires objs == s + [obj] + t && Counted(objs, sh) && Recorded(objs, sh, size)
      modifies this`heapSize, this`objs, OwnStorage(obj.u)
      ensures objs == s + t && Counted(objs, sh) && Recorded(objs, sh, size)
      ensures heapSize - Bytes(objs, sh, size) == old(heapSize) - Bytes(old(objs), sh, size) + lost
      ensures lost == if Of(sh, obj).storage != null && Owners(old(objs), sh, Of(sh, obj).storage) == 1
                      then size.ofValue * Of(sh, obj).pos else 0
    {
      hide Counted, Owners, Bytes, Storages;
      RecordedParts(s, obj, t, sh, size);
      lost := Dispose(obj, s, t, sh);
      forall o | o in s + t
        ensures ShapeOf(o.u, size) == Of(sh, o) && Sound(o.u)
      {
        assert o.u == old(o.u);
        assert ShapeOf(o.u, size) == old(ShapeOf(o.u, size));
      }
    }

    /** Nor their links. */
    method DisposeOnly(obj: Obj, ghost s: seq<Obj>, ghost t: seq<Obj>, ghost sh: map<Obj, Shape>)
      returns (ghost lost: nat)
      requires objs == s + [obj] + t && Counted(objs, sh) && Recorded(objs, sh, size)
      requires Cut(header, s, t)
      modifies this`heapSize, this`objs, OwnStorage(obj.u)
      ensures objs == s + t && Counted(objs, sh) && Recorded(objs, sh, size) && Cut(header, s, t)
      ensures heapSize - Bytes(objs, sh, size) == old(heapSize) - Bytes(old(objs), sh, size) + lost
      ensures lost == if Of(sh, obj).storage != null && Owners(old(objs), sh, Of(sh, obj).storage) == 1
                      then size.ofValue * Of(sh, obj).pos else 0
    {
      hide Counted, Recorded, Owners, Bytes, Storages;
      lost := DisposeRecorded(obj, s, t, sh);
    }

    /** The list in a sweep: everything before the cut has been kept, everything behind it waits. */
    ghost predicate Sweeping(s: seq<Obj>, t: seq<Obj>, sh: map<Obj, Shape>)
      reads this, s, t, set o, x | o in s + t && x in Parts(o.u) :: x
      reads Storages(s + t, sh)
    {
      && objs == s + t && Cut(header, s, t)
      && Counted(s + t, sh) && Recorded(s + t, sh, size)
    }

    /** An unmarked object leaves the list and is disposed of. */
    method Discard(obj: Obj, ghost s: seq<Obj>, ghost t: seq<Obj>, ghost sh: map<Obj, Shape>)
      returns (next: Obj?, ghost lost: nat)
      requires Sweeping(s, [obj] + t, sh)
      modifies this`heapSize, this`header, this`objs, (set o | o in s + t)`prev, (set o | o in s + t)`next
      modifies OwnStorage(obj.u)
      ensures Sweeping(s, t, sh) && next == First(t)
      ensures heapSize - Bytes(s + t, sh, size) == old(heapSize) - Bytes(s + [obj] + t, sh, size) + lost
      ensures lost == if Of(sh, obj).storage != null && Owners(s + [obj] + t, sh, Of(sh, obj).storage) == 1
                      then size.ofValue * Of(sh, obj).pos else 0
    {
      hide Cut, Counted, Recorded, Bytes, Owners, Storages;
      assert s + ([obj] + t) == s + [obj] + t;
      UnlinkOnly(obj, s, t, sh);
      next := obj.next;
      lost := DisposeOnly(obj, s, t, sh);
    }

    /** One round of `gc_sweep_objects`. */
    method SweepOne(obj: Obj, ghost s: seq<Obj>, ghost t: seq<Obj>, ghost sh: map<Obj, Shape>)
      returns (next: Obj?, ghost s': seq<Obj>, ghost lost: nat)
      requires Sweeping(s, [obj] + t, sh)
      modifies this`heapSize, this`header, this`objs, (set o | o in s + t)`prev, (set o | o in s + t)`next
      modifies OwnStorage(obj.u)
      ensures s' == (if obj.marked then s + [obj] else s) && Sweeping(s', t, sh) && next == First(t)
      ensures heapSize - Bytes(s' + t, sh, size) == old(heapSize) - Bytes(s + [obj] + t, sh, size) + lost
      ensures lost == if !obj.marked && Of(sh, obj).storage != null
                         && Owners(s + [obj] + t, sh, Of(sh, obj).storage) == 1
                      then size.ofValue * Of(sh, obj).pos else 0
    {
      assert s + ([obj] + t) == s + [obj] + t;
      assert objs[|s|] == obj;
      if !obj.marked {
        hide Cut, Counted, Recorded, Bytes, Owners, Storages;
        assert obj in objs;
        next, lost := Discard(obj, s, t, sh);
        s' := s;
      } else {
        CutNext(header, s, obj, t);
        next, s', lost := obj.next, s + [obj], 0;
      }
    }

    /** The marked objects of the list. */
    ghost function MarkedObjs(): set<Obj>
      reads this, objs
    {
      set o | o in objs && o.marked
    }

    /** What the round leaves alone. */
    method SweepOnly(obj: Obj, ghost all: seq<Obj>, ghost live: set<Obj>, ghost s: seq<Obj>, ghost t: seq<Obj>,
                     ghost sh: map<Obj, Shape>)
      returns (next: Obj?, ghost s': seq<Obj>, ghost lost: nat)
      requires MarksAre(all, live, sh) && obj in all && (forall o :: o in s + t ==> o in all)
      requires Sweeping(s, [obj] + t, sh)
      modifies this`heapSize, this`header, this`objs, (set o | o in all)`prev, (set o | o in all)`next
      modifies Storages(all, sh)
      ensures s' == (if obj in live then s + [obj] else s) && Sweeping(s', t, sh) && next == First(t)
      ensures MarksAre(all, live, sh)
      ensures heapSize - Bytes(s' + t, sh, size) == old(heapSize) - Bytes(s + [obj] + t, sh, size) + lost
      ensures lost == if obj !in live && Of(sh, obj).storage != null
                         && Owners(s + [obj] + t, sh, Of(sh, obj).storage) == 1
                      then size.ofValue * Of(sh, obj).pos else 0
    {
      hide Sweeping, Bytes, Owners;
      next, s', lost := SweepOne(obj, s, t, sh);
    }

    /** One round, with `n` objects of `all` already behind it. */
    method SweepNext(obj: Obj, ghost all: seq<Obj>, ghost live: set<Obj>, ghost n: nat, ghost s: seq<Obj>,
                     ghost t: seq<Obj>, ghost lost0: nat, ghost sh: map<Obj, Shape>)
      returns (next: Obj?, ghost s': seq<Obj>, ghost lost: nat)
      requires Progress(all, live, sh, n, s, t, lost0, size) && t != [] && obj == t[0]
      requires Sweeping(s, t, sh) && MarksAre(all, live, sh)
      modifies this`heapSize, this`header, this`objs, (set o | o in all)`prev, (set o | o in all)`next
      modifies Storages(all, sh)
      ensures Progress(all, live, sh, n + 1, s', t[1..], lost, size) && next == First(t[1..])
      ensures Sweeping(s', t[1..], sh) && MarksAre(all, live, sh)
      ensures heapSize - Bytes(s' + t[1..], sh, size) - lost == old(heapSize) - Bytes(s + t, sh, size) - lost0
    {
      ghost var rest := t[1..];
      assert t == [obj] + rest && s + t == s + [obj] + rest && obj == all[n] && rest == all[n + 1..];
      AllParts(all, live, n, s, rest);
      StepProgress(all, live, sh, n, s, t, lost0, size);
      hide Sweeping, Bytes, Progress, Storages, Owners, Stranded, Keep, MarksAre;
      next, s', lost := SweepOnly(obj, all, live, s, rest, sh);
      lost := lost0 + lost;
    }

    /** The loop of `gc_sweep_objects`. */
    method SweepLoop(ghost all: seq<Obj>, ghost live: set<Obj>, ghost sh: map<Obj, Shape>)
      returns (ghost s: seq<Obj>, ghost lost: nat)
      requires Progress(all, live, sh, 0, [], all, 0, size) && header == First(all)
      requires Sweeping([], all, sh) && MarksAre(all, live, sh)
      modifies this`heapSize, this`header, this`objs, (set o | o in all)`prev, (set o | o in all)`next
      modifies Storages(all, sh)
      ensures Progress(all, live, sh, |all|, s, [], lost, size) && Sweeping(s, [], sh)
      ensures heapSize - Bytes(s + [], sh, size) - lost == old(heapSize) - Bytes([] + all, sh, size)
    {
      hide Progress, Sweeping, MarksAre, Bytes, Storages;
      ghost var t, n := all, 0;
      s, lost := [], 0;
      var obj := header;
      while obj != null
        invariant Progress(all, live, sh, n, s, t, lost, size) && obj == First(t) && n + |t| == |all|
        invariant Sweeping(s, t, sh) && MarksAre(all, live, sh)
        invariant heapSize - Bytes(s + t, sh, size) - lost == old(heapSize) - Bytes([] + all, sh, size)
        decreases |t|
      {
        obj, s, lost := SweepNext(obj, all, live, n, s, t, lost, sh);
        t, n := t[1..], n + 1;
      }
      assert t == [] && n == |all|;
    }

    /** `gc_sweep_objects` */
    method Sweep(ghost sh: map<Obj, Shape>) returns (ghost lost: nat)
      requires Linked(header, objs) && Counted(objs, sh) && Recorded(objs, sh, size)
      modifies this`heapSize, this`header, this`objs, (set o | o in objs)`prev, (set o | o in objs)`next
      modifies Storages(objs, sh)
      ensures objs == Keep(old(objs), old(MarkedObjs()))
      ensures Linked(header, objs) && Counted(objs, sh) && Recorded(objs, sh, size)
      ensures heapSize - Bytes(objs, sh, size) == old(heapSize) - Bytes(old(objs), sh, size) + lost
      ensures lost == size.ofValue * Stranded(old(objs), sh, old(MarkedObjs()), |old(objs)|)
    {
      hide Counted, Recorded, Bytes, Storages, Keep, Stranded, Progress;
      ghost var all, live := objs, MarkedObjs();
      assert [] + all == all;
      CutAll(header, all);
      OwnStorages(all, sh, size);
      StartProgress(all, live, sh, size);
      ghost var s;
      s, lost := SweepLoop(all, live, sh);
      AllProgress(all, live, sh, s, lost, size);
      assert s + [] == s && objs == s;
      CutAll(header, s);
    }

    /** Every mark is cleared. */
    method ResetMarks()
      requires Linked(header, objs)
      modifies (set o | o in objs)`marked
      ensures Linked(header, objs) && MarkedObjs() == {}
    {
      var obj := header;
      ghost var n := 0;
      while obj != null
        invariant Linked(header, objs) && n <= |objs| && obj == if n == |objs| then null else objs[n]
        invariant forall i :: 0 <= i < n ==> !objs[i].marked
        decreases |objs| - n
      {
        obj.marked := false;
        obj, n := obj.next, n + 1;
      }
    }

    /** Clearing the marks leaves the graph as it is. */
    method StartMarking(ghost g: map<Obj, set<Obj>>)
      requires Linked(header, objs) && g.Keys == (set o | o in objs) && Spells(g)
      modifies g.Keys`marked
      ensures Spells(g) && Marked(g) == {}
    {
      hide Linked;
      ResetMarks();
    }

    /** `gc_mark_objects` */
    method MarkObjects(ghost g: map<Obj, set<Obj>>)
      requires Linked(header, objs) && sp <= |stack|
      requires g.Keys == (set o | o in objs) && Closed(g) && Spells(g) && Roots() <= g.Keys
      modifies g.Keys`marked
      ensures Spells(g) && (forall o :: o in objs ==> (o.marked <==> Reached(g, Roots(), o)))
      ensures RootsLeadInto(Marked(g))
    {
      hide Linked, Spells, Closed, Spread, Marked, AllTargets, ModuleTargets, EnvTargets, Targets;
      ghost var roots := Roots();
      StartMarking(g);
      ghost var m0 := Marked(g);
      MarkValues(globals, g);
      ghost var m1 := Marked(g);
      MarkModules(modules, g);
      ghost var m2 := Marked(g);
      SpreadBoth(g, m0, m1, m2, AllTargets(globals), ModuleTargets(modules));
      MarkEnvs(envs, g);
      ghost var m3 := Marked(g);
      SpreadBoth(g, m0, m2, m3, AllTargets(globals) + ModuleTargets(modules), EnvTargets(envs));
      MarkValues(stack[..sp], g);
      ghost var m4 := Marked(g);
      SpreadBoth(g, m0, m3, m4, AllTargets(globals) + ModuleTargets(modules) + EnvTargets(envs),
                 AllTargets(stack[..sp]));
      MarkValue(exception, g);
      SpreadBoth(g, m0, m4, Marked(g),
                 AllTargets(globals) + ModuleTargets(modules) + EnvTargets(envs) + AllTargets(stack[..sp]),
                 Targets(exception));
      MarkedExactly(g, roots);
      SpreadRoots(g, m0, Marked(g), roots);
      RootsLead(Marked(g));
    }

    lemma SpreadRoots(g: map<Obj, set<Obj>>, m0: set<Obj>, m1: set<Obj>, roots: set<Obj>)
      requires Spread(g, m0, m1, roots)
      ensures roots <= m1
    {
    }

    lemma MarkedExactly(g: map<Obj, set<Obj>>, roots: set<Obj>)
      requires Spread(g, {}, Marked(g), roots)
      ensures forall o :: o in g ==> (o.marked <==> Reached(g, roots, o))
    {
      forall o | o in g
        ensures o.marked <==> Reached(g, roots, o)
      {
        SpreadExact<Obj>(g, Marked(g), roots, o);
      }
    }

    // ---------------------------------------------------------------- a consistent heap

    ghost function Graph(): map<Obj, set<Obj>>
      reads this`objs, this`graph
    {
      map o | o in objs && o in graph :: graph[o]
    }

    /** No reference leads out of the list: nothing that can still be used has been freed. */
    ghost predicate NoDangling()
      reads this`objs, this`graph, this`globals, this`modules, this`envs, this`stack, this`sp, this`exception
    {
      Graph().Keys == (set o | o in objs) && Closed(Graph()) && Roots() <= Graph().Keys
    }

    ghost predicate Valid()
      reads this, repr
    {
      && this !in repr && sp <= |stack| && NoDangling() && SlicesApart(objs, shapes)
      && Intact(repr, header, objs, Graph(), shapes, size)
    }

    /** A valid heap, but for references that may lead to objects not on the list. */
    ghost predicate Framed()
      reads this, repr
    {
      && this !in repr && sp <= |stack| && Graph().Keys == (set o | o in objs) && Roots() <= Graph().Keys
      && SlicesApart(objs, shapes) && Intact(repr, header, objs, Graph(), shapes, size)
    }

    /** Every array starts at the bottom of its storage. */
    ghost predicate AtBottom()
      reads this`objs, this`shapes
    {
      forall o :: o in objs ==> Of(shapes, o).pos == 0
    }

    /** How far the counter is off. */
    ghost function Drift(): int
      reads this`heapSize, this`objs, this`shapes
    {
      heapSize - Bytes(objs, shapes, size)
    }

    /** The objects that the roots reach. */
    ghost function Live(): set<Obj>
      reads this`objs, this`graph, this`globals, this`modules, this`envs, this`stack, this`sp, this`exception
    {
      set o | o in objs && Reached(Graph(), Roots(), o)
    }

    /** The bytes that a collection leaves in the counter although their storage is gone. */
    ghost function StrandedBytes(): nat
      reads this`objs, this`shapes, this`graph, this`globals
      reads this`modules, this`envs, this`stack, this`sp, this`exception
    {
      size.ofValue * Stranded(objs, shapes, Live(), |objs|)
    }

    /** What is on the list after `check_gc`. */
    ghost function Checked(): seq<Obj>
      reads this`heapSize, this`threshold, this`objs, this`graph, this`globals
      reads this`modules, this`envs, this`stack, this`sp, this`exception
    {
      if heapSize > threshold then Keep(objs, Live()) else objs
    }

    /** The bytes that `check_gc` strands. */
    ghost function CheckLoss(): nat
      reads this`heapSize, this`threshold, this`objs, this`shapes, this`graph
      reads this`globals, this`modules, this`envs, this`stack, this`sp, this`exception
    {
      if heapSize > threshold then StrandedBytes() else 0
    }

    /** Marking leaves the payloads as they are. */
    method MarkRecorded(ghost g: map<Obj, set<Obj>>, ghost sh: map<Obj, Shape>)
      requires Linked(header, objs) && sp <= |stack|
      requires g.Keys == (set o | o in objs) && Closed(g) && Spells(g) && Roots() <= g.Keys
      requires Recorded(objs, sh, size)
      modifies g.Keys`marked
      ensures forall o :: o in objs ==> (o.marked <==> Reached(g, Roots(), o))
      ensures Spells(g) && Recorded(objs, sh, size)
    {
      hide Closed, Reached, Spells, Linked;
      MarkObjects(g);
      forall o | o in objs
        ensures ShapeOf(o.u, size) == Of(sh, o) && Sound(o.u)
      {
        assert o.u == old(o.u);
        assert ShapeOf(o.u, size) == old(ShapeOf(o.u, size));
      }
    }

    /** And the links. */
    method MarkLinked(ghost g: map<Obj, set<Obj>>, ghost sh: map<Obj, Shape>)
      requires Linked(header, objs) && sp <= |stack|
      requires g.Keys == (set o | o in objs) && Closed(g) && Spells(g) && Roots() <= g.Keys
      requires Recorded(objs, sh, size)
      modifies g.Keys`marked
      ensures MarkedObjs() == set o | o in objs && Reached(g, Roots(), o)
      ensures Linked(header, objs) && Spells(g) && Recorded(objs, sh, size)
    {
      hide Closed, Reached, Spells, Recorded;
      MarkRecorded(g, sh);
    }

    /** And the reference counts. */
    method MarkOnly(ghost g: map<Obj, set<Obj>>, ghost sh: map<Obj, Shape>)
      requires Linked(header, objs) && sp <= |stack|
      requires g.Keys == (set o | o in objs) && Closed(g) && Spells(g) && Roots() <= g.Keys
      requires Counted(objs, sh) && Recorded(objs, sh, size)
      modifies g.Keys`marked
      ensures MarkedObjs() == set o | o in objs && Reached(g, Roots(), o)
      ensures Linked(header, objs) && Spells(g) && Counted(objs, sh) && Recorded(objs, sh, size)
    {
      hide Closed, Reached, Spells, Linked, Recorded;
      MarkLinked(g, sh);
    }

    /** Sweeping leaves the graph as it is. */
    method SweepGraph(ghost g: map<Obj, set<Obj>>, ghost sh: map<Obj, Shape>) returns (ghost lost: nat)
      requires Linked(header, objs) && Counted(objs, sh) && Recorded(objs, sh, size)
      requires g.Keys == (set o | o in objs) && Spells(g)
      modifies this`heapSize, this`header, this`objs, (set o | o in objs)`prev, (set o | o in objs)`next
      modifies Storages(objs, sh)
      ensures objs == Keep(old(objs), old(MarkedObjs())) && Spells(g)
      ensures Linked(header, objs) && Counted(objs, sh) && Recorded(objs, sh, size)
      ensures heapSize - Bytes(objs, sh, size) == old(heapSize) - Bytes(old(objs), sh, size) + lost
      ensures lost == size.ofValue * Stranded(old(objs), sh, old(MarkedObjs()), |old(objs)|)
    {
      hide Linked, Counted, Recorded, Bytes, Stranded, Keep;
      lost := Sweep(sh);
    }

    /** A collection, in terms of the graph and the shapes at its start. */
    method CollectGraph(ghost g: map<Obj, set<Obj>>, ghost sh: map<Obj, Shape>, ghost live: set<Obj>)
      returns (ghost lost: nat)
      requires Linked(header, objs) && sp <= |stack|
      requires g.Keys == (set o | o in objs) && Closed(g) && Spells(g) && Roots() <= g.Keys
      requires live == set o | o in objs && Reached(g, Roots(), o)
      requires Counted(objs, sh) && Recorded(objs, sh, size)
      modifies this`heapSize, this`header, this`objs
      modifies (set o | o in objs)`prev, (set o | o in objs)`next, (set o | o in objs)`marked, Storages(objs, sh)
      ensures objs == Keep(old(objs), live) && Spells(g) && Linked(header, objs)
      ensures Counted(objs, sh) && Recorded(objs, sh, size)
      ensures heapSize - Bytes(objs, sh, size) == old(heapSize) - Bytes(old(objs), sh, size) + lost
      ensures lost == size.ofValue * Stranded(old(objs), sh, live, |old(objs)|)
    {
      hide Linked, Counted, Recorded, Spells, Bytes, Stranded, Keep, Closed, Reached;
      MarkOnly(g, sh);
      lost := SweepGraph(g, sh);
    }

    /** Everything still belongs to the heap. */
    method CollectRepr(ghost g: map<Obj, set<Obj>>, ghost live: set<Obj>)
      returns (ghost lost: nat)
      requires Linked(header, objs) && sp <= |stack|
      requires g.Keys == (set o | o in objs) && Closed(g) && Spells(g) && Roots() <= g.Keys
      requires live == set o | o in objs && Reached(g, Roots(), o)
      requires Counted(objs, shapes) && Recorded(objs, shapes, size) && this !in repr && InRepr(repr, objs, shapes)
      modifies this`heapSize, this`header, this`objs
      modifies (set o | o in objs)`prev, (set o | o in objs)`next, (set o | o in objs)`marked, Storages(objs, shapes)
      ensures objs == Keep(old(objs), live) && Spells(g) && Linked(header, objs) && Roots() == old(Roots())
      ensures Counted(objs, shapes) && Recorded(objs, shapes, size) && InRepr(repr, old(objs), shapes)
      ensures heapSize - Bytes(objs, shapes, size) == old(heapSize) - Bytes(old(objs), shapes, size) + lost
      ensures lost == size.ofValue * Stranded(old(objs), shapes, live, |old(objs)|)
    {
      hide Linked, Counted, Recorded, Spells, Bytes, Stranded, Keep, Closed, Reached, Storages, Interp.Roots;
      lost := CollectGraph(g, shapes, live);
    }

    /** `crb_garbage_collect`: exactly the objects that the roots reach survive. */
    method Collect() returns (ghost lost: nat)
      requires Valid()
      modifies this`heapSize, this`header, this`objs
      modifies (set o | o in objs)`prev, (set o | o in objs)`next, (set o | o in objs)`marked, Storages(objs, shapes)
      ensures Valid() && objs == Keep(old(objs), old(Live())) && RootsLeadInto(set o | o in objs)
      ensures Drift() == old(Drift()) + lost && lost == old(StrandedBytes())
      ensures lost == 0 <==>
        size.ofValue == 0 || forall i: nat :: i < |old(objs)| ==> !Careless(old(objs), shapes, old(Live()), i)
    {
      hide *;
      ghost var g, all, roots, live, drift := Graph(), objs, Roots(), Live(), Drift();
      BeforeCollect();
      lost := CollectRepr(g, live);
      StillApart(all, live);
      Undangled(g, all, live);
      AfterCollect();
    }

    lemma {:induction false} BeforeCollect()
      requires Valid()
      ensures Linked(header, objs) && sp <= |stack| && this !in repr && Roots() <= Graph().Keys
      ensures Graph().Keys == (set o | o in objs) && Closed(Graph()) && Spells(Graph())
      ensures Graph() == map o | o in objs && o in graph :: graph[o]
      ensures Live() == set o | o in objs && Reached(Graph(), Roots(), o)
      ensures Counted(objs, shapes) && Recorded(objs, shapes, size) && SlicesApart(objs, shapes)
      ensures InRepr(repr, objs, shapes) && Drift() == heapSize - Bytes(objs, shapes, size)
      ensures StrandedBytes() == size.ofValue * Stranded(objs, shapes, Live(), |objs|)
      ensures StrandedBytes() == 0 <==>
        size.ofValue == 0 || forall i: nat :: i < |objs| ==> !Careless(objs, shapes, Live(), i)
    {
      hide Linked, Counted, Recorded, Spells, Bytes, Careless, Closed, Reached, SlicesApart, InRepr, Stranded;
      hide AllTargets, ModuleTargets, EnvTargets, Targets;
      NoneStranded(objs, shapes, Live(), |objs|);
    }

    lemma {:induction false} AfterCollect()
      requires Linked(header, objs) && sp <= |stack| && this !in repr && NoDangling() && Spells(Graph())
      requires Counted(objs, shapes) && Recorded(objs, shapes, size) && SlicesApart(objs, shapes)
      requires InRepr(repr, objs, shapes)
      ensures Valid() && RootsLeadInto(set o | o in objs) && Drift() == heapSize - Bytes(objs, shapes, size)
    {
      hide Linked, Counted, Recorded, Spells, Bytes, SlicesApart, InRepr, Closed, Interp.RootsLeadInto;
      hide AllTargets, ModuleTargets, EnvTargets, Targets;
      RootsLead(set o | o in objs);
    }

    lemma {:induction false} Undangled(g: map<Obj, set<Obj>>, all: seq<Obj>, live: set<Obj>)
      requires g.Keys == (set o | o in all) && Closed(g) && Spells(g) && Roots() <= g.Keys
      requires g == map o | o in all && o in graph :: graph[o]
      requires objs == Keep(all, live) && live == set o | o in all && Reached(g, Roots(), o)
      ensures NoDangling() && Spells(Graph())
    {
      hide Keep, Reached;
      Survivors(all, live, g, Roots());
      var h := Graph();
      forall o | o in objs
        ensures o in h && h[o] == g[o]
      {
        assert o in g.Keys;
      }
    }

    lemma {:induction false} Survivors(all: seq<Obj>, live: set<Obj>, g: map<Obj, set<Obj>>, roots: set<Obj>)
      requires g.Keys == (set o | o in all) && Closed(g)
      requires live == (set o | o in all && Reached(g, roots, o)) && roots <= g.Keys
      ensures roots <= set o | o in Keep(all, live)
      ensures forall o :: o in Keep(all, live) ==> o in g && g[o] <= set k | k in Keep(all, live)
    {
      forall o | o in roots
        ensures o in Keep(all, live)
      {
        assert o in g.Keys;
        assert o in Within(g, roots, 0);
        KeepIn(all, live, o);
      }
      forall o | o in Keep(all, live)
        ensures o in g && g[o] <= set k | k in Keep(all, live)
      {
        KeepIn(all, live, o);
        assert o in g.Keys;
        ReachedNext<Obj>(g, roots, o);
        forall k | k in g[o]
          ensures k in Keep(all, live)
        {
          assert k in g.Keys;
          KeepIn(all, live, k);
        }
      }
    }

    lemma {:induction false} StillApart(all: seq<Obj>, live: set<Obj>)
      requires objs == Keep(all, live)
      ensures SlicesApart(all, shapes) ==> SlicesApart(objs, shapes)
      ensures InRepr(repr, all, shapes) ==> InRepr(repr, objs, shapes)
    {
      SurvivorsOnly(all, live);
      forall o | o in objs
        ensures o in all
      {
        KeepIn(all, live, o);
      }
      forall i | 0 <= i < |objs| && Of(shapes, objs[i]).storage != null
        ensures Of(shapes, objs[i]).storage in Storages(all, shapes)
      {
        assert objs[i] in objs && objs[i] in all;
      }
    }

    /** Nothing the sweep has still to look at has changed. */
    ghost predicate MarksAre(all: seq<Obj>, live: set<Obj>, sh: map<Obj, Shape>)
      reads (set o | o in all)`marked, (set o | o in all)`u, set o | o in all && o.u.ArrayObject? :: o.u.slice
    {
      forall o :: o in all ==> (o in live <==> o.marked) && OwnStorage(o.u) <= Storages(all, sh)
    }
  }

  /** `n` of the objects have been seen; `s` are those kept, `t` those to come. */
  ghost predicate Progress(all: seq<Obj>, live: set<Obj>, sh: map<Obj, Shape>, n: nat, s: seq<Obj>, t: seq<Obj>,
                           lost: nat, size: Sizes)
  {
    && n <= |all| && t == all[n..] && s == Keep(all[..n], live)
    && lost == size.ofValue * Stranded(all, sh, live, n)
  }

  lemma {:induction false} StartProgress(all: seq<Obj>, live: set<Obj>, sh: map<Obj, Shape>, size: Sizes)
    ensures Progress(all, live, sh, 0, [], all, 0, size)
  {
  }

  lemma {:induction false} AllProgress(all: seq<Obj>, live: set<Obj>, sh: map<Obj, Shape>, s: seq<Obj>, lost: nat,
                                       size: Sizes)
    requires Progress(all, live, sh, |all|, s, [], lost, size)
    ensures s == Keep(all, live)
    ensures lost == size.ofValue * Stranded(all, sh, live, |all|)
  {
    assert all[..|all|] == all;
  }

  lemma {:induction false} StepProgress(all: seq<Obj>, live: set<Obj>, sh: map<Obj, Shape>, n: nat, s: seq<Obj>,
                                        t: seq<Obj>, lost: nat, size: Sizes)
    requires Progress(all, live, sh, n, s, t, lost, size) && t != []
    ensures var x := t[0];
      var l := if x !in live && Of(sh, x).storage != null && Owners(s + [x] + t[1..], sh, Of(sh, x).storage) == 1
               then size.ofValue * Of(sh, x).pos else 0;
      && x == all[n]
      && Progress(all, live, sh, n + 1, if x in live then s + [x] else s, t[1..], lost + l, size)
  {
    KeepNext(all, n, live);
    assert all[n] in all;
    LastOwner(all, n, live, s, t[1..], sh);
    Distribute(size.ofValue, Stranded(all, sh, live, n), Of(sh, all[n]).pos);
  }

  lemma OwnStorages(s: seq<Obj>, sh: map<Obj, Shape>, size: Sizes)
    requires Recorded(s, sh, size)
    ensures forall o :: o in s ==> OwnStorage(o.u) <= Storages(s, sh)
  {
  }

  lemma {:induction false} AllParts(all: seq<Obj>, live: set<Obj>, n: nat, s: seq<Obj>, t: seq<Obj>)
    requires n < |all| && s == Keep(all[..n], live) && t == all[n + 1..]
    ensures forall o :: o in s + t ==> o in all
  {
    forall o | o in s
      ensures o in all
    {
      KeepIn(all[..n], live, o);
    }
  }

  /** The objects are as recorded, and their slices lie within their storages. */
  ghost predicate Recorded(s: seq<Obj>, sh: map<Obj, Shape>, size: Sizes)
    reads (set o | o in s)`u, set o, x | o in s && x in Parts(o.u) :: x
  {
    forall o :: o in s ==> ShapeOf(o.u, size) == Of(sh, o) && Sound(o.u)
  }

  lemma RecordedParts(s: seq<Obj>, x: Obj, t: seq<Obj>, sh: map<Obj, Shape>, size: Sizes)
    requires Recorded(s + [x] + t, sh, size)
    ensures Recorded(s + t, sh, size)
    ensures ShapeOf(x.u, size) == Of(sh, x) && Sound(x.u)
    ensures x in s + [x] + t
  {
    assert x in s + [x] + t;
    assert forall o :: o in s + t ==> o in s + [x] + t;
  }

  lemma {:induction false} KeepNext(all: seq<Obj>, n: nat, live: set<Obj>)
    requires n < |all|
    ensures Keep(all[..n + 1], live) == Keep(all[..n], live) + if all[n] in live then [all[n]] else []
  {
    assert all[..n + 1][..n] == all[..n];
  }

  /** When the next object to go is the last on its storage. */
  lemma {:induction false} LastOwner(all: seq<Obj>, n: nat, live: set<Obj>, s: seq<Obj>, t: seq<Obj>, sh: map<Obj,
                                     Shape>)
    requires n < |all| && s == Keep(all[..n], live) && t == all[n + 1..]
    ensures var x := all[n];
      Careless(all, sh, live, n) <==>
        x !in live && Of(sh, x).storage != null && Of(sh, x).pos > 0 && Owners(s + [x] + t, sh, Of(sh, x).storage) == 1
  {
    var x := all[n];
    if Of(sh, x).storage != null {
      var a := Of(sh, x).storage;
      OwnersWithout(s, x, t, sh, a);
      OwnersZero(s + t, sh, a);
      StoragesConcat(s, t, sh);
      if j :| 0 <= j < |all| && j != n && Of(sh, all[j]).storage == a && (all[j] in live || j > n) {
        if j > n {
          assert t[j - n - 1] == all[j];
        } else {
          assert all[..n][j] == all[j];
          KeepIn(all[..n], live, all[j]);
        }
      }
      if a in Storages(s, sh) {
        var i :| 0 <= i < |s| && Of(sh, s[i]).storage == a;
        KeepIn(all[..n], live, s[i]);
        var j :| 0 <= j < n && all[j] == s[i];
      }
      if a in Storages(t, sh) {
        var i :| 0 <= i < |t| && Of(sh, t[i]).storage == a;
        assert all[n + 1 + i] == t[i];
      }
    }
  }

  /** What the list says around one object. */
  lemma Around(header: Obj?, s: seq<Obj>, x: Obj, t: seq<Obj>)
    requires Cut(header, s, [x] + t)
    ensures x.prev == Last(s) && x.next == First(t) && x !in s && x !in t
    ensures NoDuplicates(s + t) && NoDuplicates(s) && NoDuplicates(t)
    ensures forall o :: o in s ==> o !in t
    ensures Segment(s, null, x) && Segment(t, x, null)
    ensures header == if s == [] then x else s[0]
  {
    var all := s + ([x] + t);
    Behead(x, t, Last(s));
    assert all[|s|] == x;
    assert forall k :: 0 <= k < |s| ==> all[k] == s[k];
    assert forall k :: 0 <= k < |t| ==> all[|s| + 1 + k] == t[k];
  }

  /** How the counts change, storage by storage. */
  lemma {:induction false} Recounted(s: seq<Obj>, x: Obj, t: seq<Obj>, sh: map<Obj, Shape>)
    ensures forall a :: a in Storages(s + t, sh) ==>
      && a in Storages(s + [x] + t, sh)
      && Owners(s + [x] + t, sh, a) == Owners(s + t, sh, a) + if Of(sh, x).storage == a then 1 else 0
    ensures Of(sh, x).storage != null ==>
      Of(sh, x).storage in Storages(s + [x] + t, sh) && Owners(s + [x] + t, sh, Of(sh, x).storage) > 0
  {
    StoragesWithout(s, x, t, sh);
    forall a | a in Storages(s + t, sh)
      ensures Owners(s + [x] + t, sh, a) == Owners(s + t, sh, a) + if Of(sh, x).storage == a then 1 else 0
    {
      OwnersWithout(s, x, t, sh, a);
    }
    if Of(sh, x).storage != null {
      OwnersZero(s + [x] + t, sh, Of(sh, x).storage);
    }
  }
}
