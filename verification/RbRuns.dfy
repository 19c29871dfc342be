/** Whole runs of a tree against a finite map. */
module RbRuns {
  import opened Values
  import opened RbTree
  import opened RbTraverse

  datatype Op = SetOp(value: Value) | GetOp(key: Value) | PopOp(key: Value) | ClearOp

  /** `ok` and the value returned; `Done` for the operations that return nothing. */
  datatype Reply = Done | Reply(value: Value, ok: bool)

  /** The map after an operation, and what the operation answers. */
  function After(m: map<int, Value>, op: Op): map<int, Value> {
    match op
    case SetOp(value) => m[value.key := value]
    case GetOp(_) => m
    case PopOp(key) => m - {key.key}
    case ClearOp => map[]
  }

  function Answer(m: map<int, Value>, op: Op): Reply {
    match op
    case SetOp(_) => Done
    case ClearOp => Done
    case _ => if op.key.key in m then Reply(m[op.key.key], true) else Reply(EMPTY_VALUE, false)
  }

  function AfterAll(m: map<int, Value>, ops: seq<Op>): map<int, Value> {
    if ops == [] then m else After(AfterAll(m, ops[..|ops| - 1]), ops[|ops| - 1])
  }

  function Answers(m: map<int, Value>, ops: seq<Op>): seq<Reply> {
    if ops == [] then []
    else Answers(m, ops[..|ops| - 1]) + [Answer(AfterAll(m, ops[..|ops| - 1]), ops[|ops| - 1])]
  }

  method Step(tr: RbTree, op: Op) returns (reply: Reply)
    requires tr.Valid()
    modifies tr, tr.nodes, tr.leaf
    ensures tr.Valid() && fresh(tr.nodes - old(tr.nodes))
    ensures tr.Contents() == After(old(tr.Contents()), op)
    ensures reply == Answer(old(tr.Contents()), op)
  {
    hide RbTree.Valid, RbTree.Contents;
    reply := Done;
    match op {
      case SetOp(value) =>
        tr.Set(value);
      case GetOp(key) =>
        var value, ok := tr.Get(key);
        reply := Reply(value, ok);
      case PopOp(key) =>
        var value, ok := tr.Pop(key);
        reply := Reply(value, ok);
      case ClearOp =>
        ghost var _ := Clear(tr);
    }
  }

  /** Any run of operations behaves as the same run on a finite map. */
  method Run(tr: RbTree, ops: seq<Op>) returns (replies: seq<Reply>)
    requires tr.Valid()
    modifies tr, tr.nodes, tr.leaf
    ensures tr.Valid()
    ensures tr.Contents() == AfterAll(old(tr.Contents()), ops)
    ensures replies == Answers(old(tr.Contents()), ops)
  {
    hide RbTree.Valid, RbTree.Contents;
    replies := [];
    for i := 0 to |ops|
      invariant tr.Valid() && fresh(tr.nodes - old(tr.nodes))
      invariant tr.Contents() == AfterAll(old(tr.Contents()), ops[..i])
      invariant replies == Answers(old(tr.Contents()), ops[..i])
    {
      assert ops[..i + 1][..i] == ops[..i];
      var reply := Step(tr, ops[i]);
      replies := replies + [reply];
    }
    assert ops[..|ops|] == ops;
  }
}
