/** Transactions as histories of reads and writes, replayed one at a time. */
module History {
  import opened Storage

  datatype Op = Read(loc: Loc, value: Value) | Write(loc: Loc, value: Value)

  /** A database value: the locations written so far; all others are zero. */
  type Store = map<Loc, Value>

  function Look(m: Store, loc: Loc): Value {
    if loc in m then m[loc] else Zero(loc.field)
  }

  function ApplyOps(m: Store, ops: seq<Op>): Store {
    if ops == [] then m
    else
      var before := ApplyOps(m, ops[..|ops| - 1]);
      match ops[|ops| - 1]
      case Read(_, _) => before
      case Write(loc, v) => before[loc := v]
  }

  /** Run alone from `m`, the transaction would read exactly the values that it did read. */
  ghost predicate Consistent(m: Store, ops: seq<Op>) {
    ops == [] ||
    (var before := ops[..|ops| - 1];
     Consistent(m, before) &&
     match ops[|ops| - 1]
     case Read(loc, v) => v == Look(ApplyOps(m, before), loc)
     case Write(_, _) => true)
  }

  function ReplayAll(m: Store, txns: seq<seq<Op>>): Store {
    if txns == [] then m
    else ApplyOps(ReplayAll(m, txns[..|txns| - 1]), txns[|txns| - 1])
  }

  /** The transactions, run one after another in this order, read what they did read. */
  ghost predicate Serial(m: Store, txns: seq<seq<Op>>) {
    txns == [] ||
    (var before := txns[..|txns| - 1];
     Serial(m, before) && Consistent(ReplayAll(m, before), txns[|txns| - 1]))
  }

  ghost predicate Writes(ops: seq<Op>, loc: Loc) {
    exists i :: 0 <= i < |ops| && ops[i].Write? && ops[i].loc == loc
  }

  ghost predicate Touches(ops: seq<Op>, loc: Loc) {
    exists i :: 0 <= i < |ops| && ops[i].loc == loc
  }

  lemma {:induction false} Unwritten(m: Store, ops: seq<Op>, loc: Loc)
    requires !Writes(ops, loc)
    ensures Look(ApplyOps(m, ops), loc) == Look(m, loc)
  {
    if ops != [] {
      var before := ops[..|ops| - 1];
      assert ops[|ops| - 1].Write? ==> ops[|ops| - 1].loc != loc;
      assert forall i :: 0 <= i < |before| ==> before[i] == ops[i];
      Unwritten(m, before, loc);
    }
  }

  lemma {:induction false} WrittenIgnoresStart(m: Store, n: Store, ops: seq<Op>, loc: Loc)
    requires Look(m, loc) == Look(n, loc)
    ensures Look(ApplyOps(m, ops), loc) == Look(ApplyOps(n, ops), loc)
  {
    if ops != [] {
      WrittenIgnoresStart(m, n, ops[..|ops| - 1], loc);
    }
  }

  /** Reads only depend on the locations that the transaction touches. */
  lemma {:induction false} ConsistentFrame(m: Store, n: Store, ops: seq<Op>)
    requires Consistent(m, ops)
    requires forall loc :: Touches(ops, loc) ==> Look(m, loc) == Look(n, loc)
    ensures Consistent(n, ops)
  {
    if ops != [] {
      var before := ops[..|ops| - 1];
      var last := ops[|ops| - 1];
      assert forall i :: 0 <= i < |before| ==> before[i] == ops[i];
      forall loc | Touches(before, loc) ensures Look(m, loc) == Look(n, loc) {
        assert Touches(ops, loc);
      }
      ConsistentFrame(m, n, before);
      assert Touches(ops, last.loc);
      WrittenIgnoresStart(m, n, before, last.loc);
    }
  }

  lemma ApplySnoc(m: Store, ops: seq<Op>, op: Op)
    ensures ApplyOps(m, ops + [op]) ==
            (match op
             case Read(_, _) => ApplyOps(m, ops)
             case Write(loc, v) => ApplyOps(m, ops)[loc := v])
    ensures op.Read? && Consistent(m, ops) && op.value == Look(ApplyOps(m, ops), op.loc)
            ==> Consistent(m, ops + [op])
    ensures op.Write? && Consistent(m, ops) ==> Consistent(m, ops + [op])
  {
    assert (ops + [op])[..|ops + [op]| - 1] == ops;
  }

  lemma ReplaySnoc(m: Store, txns: seq<seq<Op>>, ops: seq<Op>)
    ensures ReplayAll(m, txns + [ops]) == ApplyOps(ReplayAll(m, txns), ops)
    ensures Serial(m, txns) && Consistent(ReplayAll(m, txns), ops) ==> Serial(m, txns + [ops])
  {
    assert (txns + [ops])[..|txns + [ops]| - 1] == txns;
  }
}
