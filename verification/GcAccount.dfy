/** What the byte counter of the heap stands for: a sum over the objects on the list and
    over the storages their arrays share. */
module GcAccount {
  import opened GcMark
  import opened Slices

  /** `sizeof` of the C types that are counted. */
  datatype Sizes = Sizes(ofObject: nat, ofValue: nat, ofChar: nat, ofMember: nat)

  /** What the counter sees of an object: the bytes that are its own, and for an array its
      storage and the position of its slice in it. */
  datatype Shape = Shape(own: nat, slice: Slice?<CrbValue>, storage: Array?<CrbValue>, pos: nat)

  ghost function PlainShape(u: Payload, size: Sizes): Shape {
    match u
    case StringObject(length, isLiteral) =>
      Shape(size.ofObject + if isLiteral then 0 else size.ofChar * (length + 1), null, null, 0)
    case AssocObject(members) => Shape(size.ofObject + size.ofMember * |members|, null, null, 0)
    case _ => Shape(size.ofObject, null, null, 0)
  }

  ghost function ShapeOf(u: Payload, size: Sizes): Shape
    reads Parts(u)
  {
    if u.ArrayObject? then Shape(size.ofObject, u.slice, u.slice.data, u.slice.pos) else PlainShape(u, size)
  }

  ghost function Of(sh: map<Obj, Shape>, o: Obj): Shape {
    if o in sh then sh[o] else Shape(0, null, null, 0)
  }

  ghost function SumOwn(s: seq<Obj>, sh: map<Obj, Shape>): nat
  {
    if s == [] then 0 else Of(sh, s[0]).own + SumOwn(s[1..], sh)
  }

  /** How many objects of the list are arrays on the storage `a`. */
  ghost function Owners(s: seq<Obj>, sh: map<Obj, Shape>, a: Array<CrbValue>): nat
  {
    if s == [] then 0 else (if Of(sh, s[0]).storage == a then 1 else 0) + Owners(s[1..], sh, a)
  }

  ghost function Storages(s: seq<Obj>, sh: map<Obj, Shape>): set<Array<CrbValue>>
  {
    set i | 0 <= i < |s| && Of(sh, s[i]).storage != null :: Of(sh, s[i]).storage
  }

  /** The summed capacity of distinct storages. */
  ghost function SumCap(storages: set<Array<CrbValue>>): nat {
    if storages == {} then 0
    else
      var a :| a in storages;
      a.data.Length + SumCap(storages - {a})
  }

  /** The bytes of the listed objects, each shared storage counted once. */
  ghost function Bytes(s: seq<Obj>, sh: map<Obj, Shape>, size: Sizes): nat
  {
    SumOwn(s, sh) + size.ofValue * SumCap(Storages(s, sh))
  }

  lemma {:induction false} SumCapWithout(storages: set<Array<CrbValue>>, a: Array<CrbValue>)
    requires a in storages
    ensures SumCap(storages) == a.data.Length + SumCap(storages - {a})
    decreases storages
  {
    var b :| b in storages && SumCap(storages) == b.data.Length + SumCap(storages - {b});
    if a != b {
      SumCapWithout(storages - {b}, a);
      SumCapWithout(storages - {a}, b);
      assert storages - {a} - {b} == storages - {b} - {a};
    }
  }

  lemma {:induction false} SumOwnConcat(s: seq<Obj>, t: seq<Obj>, sh: map<Obj, Shape>)
    ensures SumOwn(s + t, sh) == SumOwn(s, sh) + SumOwn(t, sh)
  {
    assert forall o :: o in s || o in t ==> o in s + t;
    if s == [] {
      assert s + t == t;
    } else {
      assert (s + t)[1..] == s[1..] + t;
      SumOwnConcat(s[1..], t, sh);
    }
  }

  lemma {:induction false} OwnersConcat(s: seq<Obj>, t: seq<Obj>, sh: map<Obj, Shape>, a: Array<CrbValue>)
    ensures Owners(s + t, sh, a) == Owners(s, sh, a) + Owners(t, sh, a)
  {
    assert forall o :: o in s || o in t ==> o in s + t;
    if s == [] {
      assert s + t == t;
    } else {
      assert (s + t)[1..] == s[1..] + t;
      OwnersConcat(s[1..], t, sh, a);
    }
  }

  lemma StoragesConcat(s: seq<Obj>, t: seq<Obj>, sh: map<Obj, Shape>)
    ensures Storages(s + t, sh) == Storages(s, sh) + Storages(t, sh)
  {
    assert forall o :: o in s || o in t ==> o in s + t;
    assert forall i :: 0 <= i < |s| ==> (s + t)[i] == s[i];
    assert forall i :: 0 <= i < |t| ==> (s + t)[|s| + i] == t[i];
  }

  lemma {:induction false} OwnersZero(s: seq<Obj>, sh: map<Obj, Shape>, a: Array<CrbValue>)
    ensures Owners(s, sh, a) == 0 <==> a !in Storages(s, sh)
  {
    if s != [] {
      OwnersZero(s[1..], sh, a);
      StoragesConcat([s[0]], s[1..], sh);
      assert [s[0]] + s[1..] == s;
      OneObject(s[0], sh);
    }
  }

  lemma {:induction false} OneObject(x: Obj, sh: map<Obj, Shape>)
    ensures SumOwn([x], sh) == Of(sh, x).own
    ensures Storages([x], sh) == if Of(sh, x).storage == null then {} else {Of(sh, x).storage}
    ensures forall a :: Owners([x], sh, a) == if Of(sh, x).storage == a then 1 else 0
  {
    assert [x][0] == x && [x][1..] == [];
  }

  lemma {:induction false} OwnersWithout(s: seq<Obj>, x: Obj, t: seq<Obj>, sh: map<Obj, Shape>, a: Array<CrbValue>)
    ensures Owners(s + [x] + t, sh, a) == Owners(s + t, sh, a) + if Of(sh, x).storage == a then 1 else 0
  {
    OneObject(x, sh);
    OwnersConcat(s + [x], t, sh, a);
    OwnersConcat(s, [x], sh, a);
    OwnersConcat(s, t, sh, a);
  }

  lemma {:induction false} SumOwnWithout(s: seq<Obj>, x: Obj, t: seq<Obj>, sh: map<Obj, Shape>)
    ensures SumOwn(s + [x] + t, sh) == SumOwn(s + t, sh) + Of(sh, x).own
  {
    OneObject(x, sh);
    SumOwnConcat(s + [x], t, sh);
    SumOwnConcat(s, [x], sh);
    SumOwnConcat(s, t, sh);
  }

  lemma {:induction false} StoragesWithout(s: seq<Obj>, x: Obj, t: seq<Obj>, sh: map<Obj, Shape>)
    ensures Storages(s + [x] + t, sh) ==
      Storages(s + t, sh) + if Of(sh, x).storage == null then {} else {Of(sh, x).storage}
  {
    OneObject(x, sh);
    StoragesConcat(s + [x], t, sh);
    StoragesConcat(s, [x], sh);
    StoragesConcat(s, t, sh);
  }

  /** Taking one object off the list. */
  lemma {:induction false} WithoutObject(s: seq<Obj>, x: Obj, t: seq<Obj>, sh: map<Obj, Shape>, size: Sizes)
    ensures var a := Of(sh, x).storage;
      Bytes(s + [x] + t, sh, size) == Bytes(s + t, sh, size) + Of(sh, x).own +
        (if a != null && Owners(s + [x] + t, sh, a) == 1 then size.ofValue * a.data.Length else 0)
  {
    SumOwnWithout(s, x, t, sh);
    StoragesWithout(s, x, t, sh);
    var a := Of(sh, x).storage;
    var was, now := Storages(s + [x] + t, sh), Storages(s + t, sh);
    if a == null {
      assert was == now;
    } else {
      OwnersWithout(s, x, t, sh, a);
      OwnersZero(s + t, sh, a);
      hide Storages, Owners, SumOwn, SumCap;
      if a !in now {
        SumCapWithout(was, a);
        assert was - {a} == now;
        Distribute(size.ofValue, a.data.Length, SumCap(now));
      } else {
        assert was == now;
      }
    }
  }

  lemma Distribute(a: int, b: int, c: int)
    ensures a * (b + c) == a * b + a * c
  {
  }

  ghost predicate Agree(s: seq<Obj>, sh: map<Obj, Shape>, sh': map<Obj, Shape>) {
    forall o :: o in s ==> Of(sh, o) == Of(sh', o)
  }

  /** Only the shapes of the listed objects matter. */
  lemma {:induction false} SameShapes(s: seq<Obj>, sh: map<Obj, Shape>, sh': map<Obj, Shape>, size: Sizes)
    requires Agree(s, sh, sh')
    ensures Storages(s, sh) == Storages(s, sh') && SumOwn(s, sh) == SumOwn(s, sh')
    ensures forall a :: a in Storages(s, sh) ==> Owners(s, sh, a) == Owners(s, sh', a)
    ensures Bytes(s, sh, size) == Bytes(s, sh', size)
  {
    SameSum(s, sh, sh');
    assert Storages(s, sh) == Storages(s, sh') by {
      assert forall i :: 0 <= i < |s| ==> s[i] in s;
    }
    forall a | a in Storages(s, sh)
      ensures Owners(s, sh, a) == Owners(s, sh', a)
    {
      SameOwners(s, sh, sh', a);
    }
  }

  lemma {:induction false} SameSum(s: seq<Obj>, sh: map<Obj, Shape>, sh': map<Obj, Shape>)
    requires Agree(s, sh, sh')
    ensures SumOwn(s, sh) == SumOwn(s, sh')
  {
    if s != [] { SameSum(s[1..], sh, sh'); }
  }

  lemma {:induction false} SameOwners(s: seq<Obj>, sh: map<Obj, Shape>, sh': map<Obj, Shape>, a: Array<CrbValue>)
    requires Agree(s, sh, sh')
    ensures Owners(s, sh, a) == Owners(s, sh', a)
  {
    if s != [] { SameOwners(s[1..], sh, sh', a); }
  }

  /** One more object in front. */
  lemma {:induction false} JoinedOwners(s: seq<Obj>, x: Obj, sh: map<Obj, Shape>, shape: Shape, a: Array<CrbValue>)
    requires x !in s
    ensures Owners([x] + s, sh[x := shape], a) == Owners(s, sh, a) + if shape.storage == a then 1 else 0
  {
    SameOwners(s, sh, sh[x := shape], a);
    assert ([x] + s)[1..] == s;
  }

  lemma {:induction false} JoinedStorages(s: seq<Obj>, x: Obj, sh: map<Obj, Shape>, shape: Shape)
    requires x !in s
    ensures Storages([x] + s, sh[x := shape]) == Storages(s, sh) + if shape.storage == null then {} else {shape.storage}
  {
    SameShapes(s, sh, sh[x := shape], Sizes(0, 0, 0, 0));
    StoragesConcat([x], s, sh[x := shape]);
    OneObject(x, sh[x := shape]);
  }

  lemma {:induction false} JoinedBytes(s: seq<Obj>, x: Obj, sh: map<Obj, Shape>, shape: Shape, size: Sizes)
    requires x !in s
    ensures Bytes([x] + s, sh[x := shape], size) == Bytes(s, sh, size) + shape.own +
      if shape.storage != null && Owners(s, sh, shape.storage) == 0 then size.ofValue * shape.storage.data.Length else 0
  {
    var sh' := sh[x := shape];
    SameShapes(s, sh, sh', size);
    assert [] + [x] + s == [x] + s && [] + s == s;
    WithoutObject([], x, s, sh', size);
    if shape.storage != null {
      JoinedOwners(s, x, sh, shape, shape.storage);
    }
  }

  /** The array `x` has moved to a storage of its own. */
  ghost predicate Moved(s: seq<Obj>, k: nat, sh: map<Obj, Shape>, shape: Shape) {
    && k < |s| && s[k] !in s[..k] + s[k + 1..] && shape.own == Of(sh, s[k]).own
    && Of(sh, s[k]).storage != null && shape.storage != null && shape.storage !in Storages(s, sh)
  }

  lemma {:induction false} MovedOwners(s: seq<Obj>, k: nat, sh: map<Obj, Shape>, shape: Shape, a: Array<CrbValue>)
    requires Moved(s, k, sh, shape)
    ensures Owners(s, sh[s[k] := shape], a) ==
      if a == shape.storage then 1 else if a == Of(sh, s[k]).storage then Owners(s, sh, a) - 1 else Owners(s, sh, a)
  {
    var p, q, sh' := s[..k], s[k + 1..], sh[s[k] := shape];
    assert s == p + [s[k]] + q;
    OwnersWithout(p, s[k], q, sh, a);
    OwnersWithout(p, s[k], q, sh', a);
    SameOwners(p + q, sh, sh', a);
    OwnersZero(s, sh, shape.storage);
  }

  lemma {:induction false} MovedStorages(s: seq<Obj>, k: nat, sh: map<Obj, Shape>, shape: Shape)
    requires Moved(s, k, sh, shape)
    ensures shape.storage in Storages(s, sh[s[k] := shape])
    ensures Storages(s, sh[s[k] := shape]) <= Storages(s, sh) + {shape.storage}
  {
    var p, q, sh' := s[..k], s[k + 1..], sh[s[k] := shape];
    assert s == p + [s[k]] + q;
    StoragesWithout(p, s[k], q, sh);
    StoragesWithout(p, s[k], q, sh');
    SameShapes(p + q, sh, sh', Sizes(0, 0, 0, 0));
  }

  /** What moving an array does to the bytes. */
  lemma {:induction false} MovedBytes(s: seq<Obj>, k: nat, sh: map<Obj, Shape>, shape: Shape, size: Sizes)
    requires Moved(s, k, sh, shape)
    ensures var was := Of(sh, s[k]).storage;
      Bytes(s, sh[s[k] := shape], size) ==
        Bytes(s, sh, size) - (if Owners(s, sh, was) == 1 then size.ofValue * was.data.Length else 0)
                           + size.ofValue * shape.storage.data.Length
  {
    var p, q, sh' := s[..k], s[k + 1..], sh[s[k] := shape];
    assert s == p + [s[k]] + q;
    WithoutObject(p, s[k], q, sh, size);
    WithoutObject(p, s[k], q, sh', size);
    SameShapes(p + q, sh, sh', size);
    MovedOwners(s, k, sh, shape, shape.storage);
  }

  /** An object has come to count for `more` bytes of its own. */
  lemma {:induction false} GrownBytes(s: seq<Obj>, k: nat, sh: map<Obj, Shape>, more: nat, size: Sizes)
    requires k < |s| && s[k] !in s[..k] + s[k + 1..] && Of(sh, s[k]).storage == null
    ensures var shape := Of(sh, s[k]).(own := Of(sh, s[k]).own + more);
      && Bytes(s, sh[s[k] := shape], size) == Bytes(s, sh, size) + more
      && Storages(s, sh[s[k] := shape]) == Storages(s, sh)
      && forall a :: a in Storages(s, sh) ==> Owners(s, sh[s[k] := shape], a) == Owners(s, sh, a)
  {
    var shape := Of(sh, s[k]).(own := Of(sh, s[k]).own + more);
    var p, q, sh' := s[..k], s[k + 1..], sh[s[k] := shape];
    assert s == p + [s[k]] + q;
    WithoutObject(p, s[k], q, sh, size);
    WithoutObject(p, s[k], q, sh', size);
    StoragesWithout(p, s[k], q, sh);
    StoragesWithout(p, s[k], q, sh');
    SameShapes(p + q, sh, sh', size);
    forall a | a in Storages(s, sh)
      ensures Owners(s, sh', a) == Owners(s, sh, a)
    {
      OwnersWithout(p, s[k], q, sh, a);
      OwnersWithout(p, s[k], q, sh', a);
      SameOwners(p + q, sh, sh', a);
    }
  }
}
