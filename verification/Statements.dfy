/** Update statements that change the table under their own scan. */
module Statements {
  import opened QueryText
  import opened Tables

  // ---- predicates on rows ----

  predicate Knows(row: Row, e: Expression) {
    e.Field? ==> e.name in row
  }

  predicate KnowsTerms(row: Row, terms: seq<Term>) {
    forall i :: 0 <= i < |terms| ==> Knows(row, terms[i].lhs) && Knows(row, terms[i].rhs)
  }

  function Eval(e: Expression, row: Row): Constant
    requires Knows(row, e)
  {
    match e
    case Field(name) => row[name]
    case IntConst(i) => Int(i)
    case StrConst(s) => Str(s)
  }

  /** Every term holds. */
  predicate Satisfied(terms: seq<Term>, row: Row)
    requires KnowsTerms(row, terms)
  {
    forall i :: 0 <= i < |terms| ==> Eval(terms[i].lhs, row) == Eval(terms[i].rhs, row)
  }

  method IsSatisfied(terms: seq<Term>, row: Row) returns (holds: bool)
    requires KnowsTerms(row, terms)
    ensures holds == Satisfied(terms, row)
  {
    var i := 0;
    while i < |terms|
      invariant i <= |terms| && forall k :: 0 <= k < i ==> Eval(terms[k].lhs, row) == Eval(terms[k].rhs, row)
    {
      if Eval(terms[i].lhs, row) != Eval(terms[i].rhs, row) {
        return false;
      }
      i := i + 1;
    }
    holds := true;
  }

  /** A field against a constant, on either side: the row's field is that constant. */
  lemma {:induction false} FieldIsConstant(row: Row, name: string, i: int, s: string)
    requires name in row
    ensures KnowsTerms(row, [Term(Field(name), IntConst(i))])
    ensures Satisfied([Term(Field(name), IntConst(i))], row) == (row[name] == Int(i))
    ensures KnowsTerms(row, [Term(IntConst(i), Field(name))])
    ensures Satisfied([Term(IntConst(i), Field(name))], row) == (row[name] == Int(i))
    ensures KnowsTerms(row, [Term(Field(name), StrConst(s))])
    ensures Satisfied([Term(Field(name), StrConst(s))], row) == (row[name] == Str(s))
    ensures KnowsTerms(row, [Term(StrConst(s), Field(name))])
    ensures Satisfied([Term(StrConst(s), Field(name))], row) == (row[name] == Str(s))
  {
    OneTerm(Term(Field(name), IntConst(i)), row);
    OneTerm(Term(IntConst(i), Field(name)), row);
    OneTerm(Term(Field(name), StrConst(s)), row);
    OneTerm(Term(StrConst(s), Field(name)), row);
  }

  lemma {:induction false} OneTerm(t: Term, row: Row)
    requires Knows(row, t.lhs) && Knows(row, t.rhs)
    ensures KnowsTerms(row, [t]) && Satisfied([t], row) == (Eval(t.lhs, row) == Eval(t.rhs, row))
  {
    assert [t][0] == t;
  }

  /** Two fields are equal in the row; two constants are equal as values, a number and a string never. */
  lemma {:induction false} OtherTerms(row: Row, name1: string, name2: string, i: int, j: int, s: string, s': string)
    requires name1 in row && name2 in row
    ensures KnowsTerms(row, [Term(Field(name1), Field(name2))])
    ensures Satisfied([Term(Field(name1), Field(name2))], row) == (row[name1] == row[name2])
    ensures Satisfied([Term(IntConst(i), IntConst(j))], row) == (i == j)
    ensures Satisfied([Term(StrConst(s), StrConst(s'))], row) == (s == s')
    ensures !Satisfied([Term(IntConst(i), StrConst(s))], row) && !Satisfied([Term(StrConst(s), IntConst(i))], row)
  {
    OneTerm(Term(Field(name1), Field(name2)), row);
    OneTerm(Term(IntConst(i), IntConst(j)), row);
    OneTerm(Term(StrConst(s), StrConst(s')), row);
    OneTerm(Term(IntConst(i), StrConst(s)), row);
    OneTerm(Term(StrConst(s), IntConst(i)), row);
  }

  /** A joined predicate holds exactly if both parts do, and the empty one always. */
  lemma {:induction false} Conjoined(a: seq<Term>, b: seq<Term>, row: Row)
    ensures KnowsTerms(row, []) && Satisfied([], row)
    ensures KnowsTerms(row, a + b) <==> KnowsTerms(row, a) && KnowsTerms(row, b)
    ensures KnowsTerms(row, a + b) ==> Satisfied(a + b, row) == (Satisfied(a, row) && Satisfied(b, row))
  {
    assert forall i :: 0 <= i < |a| ==> (a + b)[i] == a[i];
    assert forall i :: 0 <= i < |b| ==> (a + b)[|a| + i] == b[i];
  }

  // ---- the records that a statement is about ----

  /** Every row has the fields that the statement names. */
  ghost predicate Known(blocks: Blocks, terms: seq<Term>) {
    forall r: RID :: In(blocks, r) ==> KnowsTerms(At(blocks, r).row, terms)
  }

  predicate SlotHit(s: Slot, terms: seq<Term>)
    requires KnowsTerms(s.row, terms)
  {
    s.used && Satisfied(terms, s.row)
  }

  ghost predicate Hit(blocks: Blocks, terms: seq<Term>, r: RID)
    requires Known(blocks, terms)
  {
    In(blocks, r) && SlotHit(At(blocks, r), terms)
  }

  /** The records hit at places up to `p`. */
  ghost function HitsUpTo(blocks: Blocks, terms: seq<Term>, p: RID): (hits: set<RID>)
    requires Known(blocks, terms)
    ensures forall r :: r in hits <==> Hit(blocks, terms, r) && !p.Before(r)
  {
    set b: nat, k: nat |
      b < |blocks| && k < |blocks[b]| && Hit(blocks, terms, RID(b, k)) && !p.Before(RID(b, k)) :: RID(b, k)
  }

  ghost function Hits(blocks: Blocks, terms: seq<Term>): (hits: set<RID>)
    requires Known(blocks, terms)
    ensures forall r :: r in hits <==> Hit(blocks, terms, r)
  {
    HitsUpTo(blocks, terms, RID(|blocks|, 0))
  }

  ghost predicate NoHitBetween(blocks: Blocks, terms: seq<Term>, p: RID, q: RID)
    requires Known(blocks, terms)
  {
    forall r: RID :: p.Before(r) && r.Before(q) ==> !Hit(blocks, terms, r)
  }

  class SelectScan {
    const scan: TableScan
    const terms: seq<Term>

    ghost predicate Valid()
      reads this, scan, scan.file
    {
      scan.Valid() && Known(scan.file.blocks, terms)
    }

    constructor (scan: TableScan, terms: seq<Term>)
      requires scan.Valid() && Known(scan.file.blocks, terms)
      ensures this.scan == scan && this.terms == terms && Valid()
    {
      this.scan, this.terms := scan, terms;
    }

    /** To the next used record that satisfies the predicate. */
    method Next() returns (ok: bool)
      requires Valid()
      modifies scan
      ensures ok ==> Valid() && Hit(scan.file.blocks, terms, scan.Here()) && old(scan.Here()).Before(scan.Here()) &&
                     NoHitBetween(scan.file.blocks, terms, old(scan.Here()), scan.Here())
      ensures !ok ==> forall r: RID :: old(scan.Here()).Before(r) ==> !Hit(scan.file.blocks, terms, r)
    {
      ghost var from := scan.Here();
      ok := scan.Next();
      while ok
        invariant ok ==> Valid() && Used(scan.file.blocks, scan.Here()) && from.Before(scan.Here())
        invariant ok ==> NoHitBetween(scan.file.blocks, terms, from, scan.Here())
        invariant !ok ==> forall r: RID :: from.Before(r) ==> !Hit(scan.file.blocks, terms, r)
        decreases if ok then |scan.file.blocks| - scan.block else 0, if ok then scan.file.perBlock - scan.currentSlot else 0
      {
        var row := scan.GetRow();
        var holds := IsSatisfied(terms, row);
        if holds {
          return;
        }
        ok := scan.Next();
      }
    }
  }

  // ---- statements as simultaneous updates ----

  /** The places up to `p` are changed, the others are as they were. */
  ghost predicate ChangedUpTo(before: Blocks, after: Blocks, p: RID, f: Slot -> Slot) {
    && |after| == |before| && (forall b :: 0 <= b < |before| ==> |after[b]| == |before[b]|)
    && forall r: RID :: In(before, r) ==> At(after, r) == if p.Before(r) then At(before, r) else f(At(before, r))
  }

  /** Every slot of the table is changed at once. */
  ghost predicate Changed(before: Blocks, after: Blocks, f: Slot -> Slot) {
    && |after| == |before| && (forall b :: 0 <= b < |before| ==> |after[b]| == |before[b]|)
    && forall r: RID :: In(before, r) ==> At(after, r) == f(At(before, r))
  }

  function Deleting(terms: seq<Term>): Slot -> Slot {
    (s: Slot) => if KnowsTerms(s.row, terms) && SlotHit(s, terms) then s.(used := false) else s
  }

  function Modifying(terms: seq<Term>, target: string, e: Expression): Slot -> Slot {
    (s: Slot) => if KnowsTerms(s.row, terms) && Knows(s.row, e) && SlotHit(s, terms)
                 then s.(row := s.row[target := Eval(e, s.row)]) else s
  }

  /** One step of a statement's loop. */
  lemma {:induction false} ChangeStep(before: Blocks, now: Blocks, after: Blocks, terms: seq<Term>, p: RID, q: RID,
                                      f: Slot -> Slot)
    requires Known(before, terms) && ChangedUpTo(before, now, p, f) && p.Before(q) && Hit(before, terms, q)
    requires NoHitBetween(before, terms, p, q) && In(now, q) && after == Put(now, q, f(At(before, q)))
    requires forall s: Slot :: KnowsTerms(s.row, terms) && !SlotHit(s, terms) ==> f(s) == s
    ensures ChangedUpTo(before, after, q, f)
    ensures |HitsUpTo(before, terms, q)| == |HitsUpTo(before, terms, p)| + 1
  {
    assert HitsUpTo(before, terms, q) == HitsUpTo(before, terms, p) + {q};
    forall r: RID | In(before, r)
      ensures At(after, r) == if q.Before(r) then At(before, r) else f(At(before, r))
    {
      if p.Before(r) && r.Before(q) {
        assert !Hit(before, terms, r);
      }
    }
  }

  /** A hit ahead of the scan is a hit of the table as it was. */
  lemma {:induction false} HitsAhead(before: Blocks, now: Blocks, terms: seq<Term>, p: RID, f: Slot -> Slot)
    requires Known(before, terms) && Known(now, terms) && ChangedUpTo(before, now, p, f)
    ensures forall r: RID :: p.Before(r) ==> Hit(now, terms, r) == Hit(before, terms, r)
  {
  }

  lemma {:induction false} ChangeDone(before: Blocks, now: Blocks, terms: seq<Term>, p: RID, f: Slot -> Slot)
    requires Known(before, terms) && ChangedUpTo(before, now, p, f)
    requires forall r: RID :: p.Before(r) ==> !Hit(before, terms, r)
    requires forall s: Slot :: KnowsTerms(s.row, terms) && !SlotHit(s, terms) ==> f(s) == s
    ensures Changed(before, now, f) && HitsUpTo(before, terms, p) == Hits(before, terms)
  {
    forall r: RID | In(before, r) ensures At(now, r) == f(At(before, r)) {
      if p.Before(r) {
        assert !Hit(before, terms, r);
      }
    }
  }

  lemma {:induction false} KnownAfter(before: Blocks, now: Blocks, terms: seq<Term>, p: RID, f: Slot -> Slot)
    requires Known(before, terms) && ChangedUpTo(before, now, p, f)
    requires forall s: Slot :: KnowsTerms(s.row, terms) ==> KnowsTerms(f(s).row, terms)
    ensures Known(now, terms)
  {
    forall r: RID | In(now, r) ensures KnowsTerms(At(now, r).row, terms) {
      assert In(before, r) && KnowsTerms(At(before, r).row, terms);
    }
  }

  /** ExecuteDelete: exactly the records that satisfied the predicate are gone; the result is their number. */
  method ExecuteDelete(file: TableFile, terms: seq<Term>) returns (count: nat)
    requires file.Valid() && Known(file.blocks, terms)
    modifies file
    ensures file.Valid() && Changed(old(file.blocks), file.blocks, Deleting(terms))
    ensures count == |Hits(old(file.blocks), terms)|
  {
    ghost var before, f := file.blocks, Deleting(terms);
    var scan := new TableScan(file);
    var select := new SelectScan(scan, terms);
    count := 0;
    ghost var p := scan.Here();
    var more := select.Next();
    while more
      invariant file.Valid() && Known(file.blocks, terms) && ChangedUpTo(before, file.blocks, p, f)
      invariant count == |HitsUpTo(before, terms, p)|
      invariant more ==> select.Valid() && p.Before(scan.Here()) && Hit(file.blocks, terms, scan.Here()) &&
                         NoHitBetween(file.blocks, terms, p, scan.Here())
      invariant !more ==> forall r: RID :: p.Before(r) ==> !Hit(file.blocks, terms, r)
      decreases if more then |before| - scan.block else 0, if more then file.perBlock - scan.currentSlot else 0
    {
      ghost var now, q := file.blocks, scan.Here();
      HitsAhead(before, now, terms, p, f);
      scan.Delete();
      count := count + 1;
      ChangeStep(before, now, file.blocks, terms, p, q, f);
      p := q;
      KnownAfter(before, file.blocks, terms, p, f);
      more := select.Next();
    }
    HitsAhead(before, file.blocks, terms, p, f);
    ChangeDone(before, file.blocks, terms, p, f);
  }

  lemma ModifyingKeeps(terms: seq<Term>, target: string, e: Expression)
    ensures forall s: Slot :: KnowsTerms(s.row, terms) && !SlotHit(s, terms) ==> Modifying(terms, target, e)(s) == s
    ensures forall s: Slot :: KnowsTerms(s.row, terms) ==> KnowsTerms(Modifying(terms, target, e)(s).row, terms)
  {
  }

  method ModifyHere(scan: TableScan, terms: seq<Term>, target: string, e: Expression, ghost before: Blocks, ghost p: RID)
    requires scan.Valid() && Known(before, terms) && Hit(before, terms, scan.Here()) && p.Before(scan.Here())
    requires forall r: RID :: In(before, r) ==> Knows(At(before, r).row, e)
    requires NoHitBetween(before, terms, p, scan.Here())
    requires ChangedUpTo(before, scan.file.blocks, p, Modifying(terms, target, e))
    modifies scan.file
    ensures scan.Valid() && ChangedUpTo(before, scan.file.blocks, scan.Here(), Modifying(terms, target, e))
    ensures |HitsUpTo(before, terms, scan.Here())| == |HitsUpTo(before, terms, p)| + 1
  {
    ghost var now, f := scan.file.blocks, Modifying(terms, target, e);
    var row := scan.GetRow();
    scan.SetVal(target, Eval(e, row));
    ChangeStep(before, now, scan.file.blocks, terms, p, scan.Here(), f);
  }

  /** ExecuteModify: the new values are computed from the rows as they were. */
  method ExecuteModify(file: TableFile, terms: seq<Term>, target: string, e: Expression) returns (count: nat)
    requires file.Valid() && Known(file.blocks, terms)
    requires forall r: RID :: In(file.blocks, r) ==> Knows(At(file.blocks, r).row, e)
    modifies file
    ensures file.Valid() && Changed(old(file.blocks), file.blocks, Modifying(terms, target, e))
    ensures count == |Hits(old(file.blocks), terms)|
  {
    ghost var before, f := file.blocks, Modifying(terms, target, e);
    ModifyingKeeps(terms, target, e);
    hide KnowsTerms, SlotHit, Satisfied, Modifying, Put, HitsUpTo;
    var scan := new TableScan(file);
    var select := new SelectScan(scan, terms);
    count := 0;
    ghost var p := scan.Here();
    var more := select.Next();
    while more
      invariant file.Valid() && Known(file.blocks, terms) && ChangedUpTo(before, file.blocks, p, f)
      invariant count == |HitsUpTo(before, terms, p)|
      invariant more ==> select.Valid() && p.Before(scan.Here()) && Hit(file.blocks, terms, scan.Here()) &&
                         NoHitBetween(file.blocks, terms, p, scan.Here())
      invariant !more ==> forall r: RID :: p.Before(r) ==> !Hit(file.blocks, terms, r)
      decreases if more then |before| - scan.block else 0, if more then file.perBlock - scan.currentSlot else 0
    {
      ghost var now, q := file.blocks, scan.Here();
      HitsAhead(before, now, terms, p, f);
      ModifyHere(scan, terms, target, e, before, p);
      count := count + 1;
      p := q;
      KnownAfter(before, file.blocks, terms, p, f);
      more := select.Next();
    }
    HitsAhead(before, file.blocks, terms, p, f);
    ChangeDone(before, file.blocks, terms, p, f);
  }

  // ---- what the statements do to each record ----

  /** After a deletion the used records are exactly the former ones that do not satisfy the predicate. */
  lemma {:induction false} Deleted(before: Blocks, after: Blocks, terms: seq<Term>, r: RID)
    requires Known(before, terms) && Changed(before, after, Deleting(terms))
    ensures In(after, r) <==> In(before, r)
    ensures In(before, r) ==> At(after, r).row == At(before, r).row
    ensures Used(after, r) <==> Used(before, r) && !Satisfied(terms, At(before, r).row)
  {
  }

  /** DELETE WHERE field = constant: the records with another value stay. */
  lemma {:induction false} DeletedEqual(before: Blocks, after: Blocks, name: string, i: int, s: string, r: RID)
    requires forall q: RID :: In(before, q) ==> name in At(before, q).row
    ensures Changed(before, after, Deleting([Term(Field(name), IntConst(i))])) ==>
              (Used(after, r) <==> Used(before, r) && At(before, r).row[name] != Int(i))
    ensures Changed(before, after, Deleting([Term(Field(name), StrConst(s))])) ==>
              (Used(after, r) <==> Used(before, r) && At(before, r).row[name] != Str(s))
  {
    forall q: RID | In(before, q)
      ensures KnowsTerms(At(before, q).row, [Term(Field(name), IntConst(i))])
      ensures KnowsTerms(At(before, q).row, [Term(Field(name), StrConst(s))])
    {
      FieldIsConstant(At(before, q).row, name, i, s);
    }
    if Used(before, r) {
      FieldIsConstant(At(before, r).row, name, i, s);
    }
    if Changed(before, after, Deleting([Term(Field(name), IntConst(i))])) {
      Deleted(before, after, [Term(Field(name), IntConst(i))], r);
    }
    if Changed(before, after, Deleting([Term(Field(name), StrConst(s))])) {
      Deleted(before, after, [Term(Field(name), StrConst(s))], r);
    }
  }

  /** After a change of one field, a record that satisfied the predicate has the new value there and its other fields as
      before; every other record is as it was. */
  lemma {:induction false} Modified(before: Blocks, after: Blocks, terms: seq<Term>, target: string, e: Expression, r: RID)
    requires Known(before, terms) && Changed(before, after, Modifying(terms, target, e))
    requires In(before, r) && Knows(At(before, r).row, e)
    ensures In(after, r) && At(after, r).used == At(before, r).used
    ensures var was, now := At(before, r).row, At(after, r).row;
            if Used(before, r) && Satisfied(terms, was) then
              && now.Keys == was.Keys + {target} && now[target] == Eval(e, was)
              && forall name :: name in was && name != target ==> now[name] == was[name]
            else now == was
  {
  }

  /** UPDATE SET target = constant. */
  lemma {:induction false} ModifiedToConstant(before: Blocks, after: Blocks, terms: seq<Term>, target: string, i: int,
                                              s: string, r: RID)
    requires Known(before, terms) && Hit(before, terms, r)
    ensures Changed(before, after, Modifying(terms, target, IntConst(i))) ==>
              In(after, r) && target in At(after, r).row && At(after, r).row[target] == Int(i)
    ensures Changed(before, after, Modifying(terms, target, StrConst(s))) ==>
              In(after, r) && target in At(after, r).row && At(after, r).row[target] == Str(s)
  {
    assert KnowsTerms(At(before, r).row, terms);
  }
}
