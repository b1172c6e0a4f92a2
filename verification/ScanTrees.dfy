/** The tree of scans that a plan of nested products opens, and what a client reads from it. */
module ScanTrees {
  import opened QueryText
  import opened Tables
  import opened Statements
  import opened Joins

  datatype Seen = NoRow | Seen(row: Row)

  /** Where each scan of the tree is: at a row of its operand, before the first one, or behind the last one. */
  datatype Position = At(pos: int) | Pair(left: Position, right: Position)

  predicate Fits(p: Plan, st: Position) {
    match p
    case TablePlan(rows) => st.At? && -1 <= st.pos <= |rows|
    case Product(left, right) => st.Pair? && Fits(left, st.left) && Fits(right, st.right)
  }

  /** BeforeFirst: a product goes to the first row of its left side, if there is one. */
  function Start(p: Plan): (st: Position)
    ensures Fits(p, st)
  {
    match p
    case TablePlan(_) => At(-1)
    case Product(left, right) => Pair(Step(left, Start(left)).0, Start(right))
  }

  /** Next: the next right row, or the first right row with the next left one. */
  function Step(p: Plan, st: Position): (res: (Position, bool))
    requires Fits(p, st)
    ensures Fits(p, res.0)
  {
    match p
    case TablePlan(rows) => if st.pos < |rows| then (At(st.pos + 1), st.pos + 1 < |rows|) else (st, false)
    case Product(left, right) =>
      var (r1, more) := Step(right, st.right);
      if more then (Pair(st.left, r1), true)
      else
        var (l1, moreLeft) := Step(left, st.left);
        if !moreLeft then (Pair(l1, Start(right)), false)
        else
          var (r2, moreRight) := Step(right, Start(right));
          (Pair(l1, r2), moreRight)
  }

  /** All scans of the tree are at rows. */
  predicate OnRow(p: Plan, st: Position)
    requires Fits(p, st)
  {
    match p
    case TablePlan(rows) => 0 <= st.pos < |rows|
    case Product(left, right) => OnRow(left, st.left) && OnRow(right, st.right)
  }

  function Current(p: Plan, st: Position): Row
    requires Fits(p, st) && OnRow(p, st)
  {
    match p
    case TablePlan(rows) => rows[st.pos]
    case Product(left, right) => Merge(Current(left, st.left), Current(right, st.right))
  }

  // ---- how many rows there will be ----

  /** How often Next will be true. */
  function Left(p: Plan, st: Position): nat
    requires Fits(p, st)
  {
    match p
    case TablePlan(rows) => if st.pos < |rows| then |rows| - 1 - st.pos else 0
    case Product(left, right) => Left(right, st.right) + Left(left, st.left) * Left(right, Start(right))
  }

  function Operand(p: Plan): seq<Row> {
    match p
    case TablePlan(rows) => rows
    case Product(_, right) => Operand(right)
  }

  predicate AllHaveRows(p: Plan) {
    match p
    case TablePlan(rows) => rows != []
    case Product(left, right) => AllHaveRows(left) && AllHaveRows(right)
  }

  /** Without rows in its last operand, a scan never has a row. */
  lemma {:induction false} NoneLeft(p: Plan, st: Position)
    requires Fits(p, st)
    ensures Left(p, Start(p)) == 0 <==> Operand(p) == []
    ensures Left(p, Start(p)) == 0 ==> Left(p, st) == 0
    decreases p
  {
    match p
    case TablePlan(rows) =>
    case Product(left, right) =>
      NoneLeft(right, st.right);
      Times(Left(left, st.left), Left(right, Start(right)));
      Times(Left(left, Start(p).left), Left(right, Start(right)));
  }

  /** Next is true as long as rows are left, and takes one of them. */
  lemma {:induction false} StepLeft(p: Plan, st: Position)
    requires Fits(p, st)
    ensures var (st', ok) := Step(p, st);
            (ok <==> Left(p, st) > 0) && (ok ==> Left(p, st') == Left(p, st) - 1)
    decreases p
  {
    match p
    case TablePlan(rows) =>
    case Product(left, right) =>
      StepLeft(right, st.right);
      StepLeft(left, st.left);
      StepLeft(right, Start(right));
      Times(Left(left, st.left), Left(right, Start(right)));
  }

  lemma Times(l: nat, n: nat)
    ensures l == 0 ==> l * n == 0
    ensures l > 0 ==> l * n == (l - 1) * n + n && (l * n > 0 <==> n > 0)
  {
  }

  /** What a client sees while Next is true: a row, or whatever scans that are at no row give. */
  ghost function Read(p: Plan, st: Position): seq<Seen>
    requires Fits(p, st)
    decreases Left(p, st)
  {
    StepLeft(p, st);
    var (st', ok) := Step(p, st);
    if ok then [SeenAt(p, st')] + Read(p, st') else []
  }

  function SeenAt(p: Plan, st: Position): Seen
    requires Fits(p, st)
  {
    if OnRow(p, st) then Seen(Current(p, st)) else NoRow
  }

  function AllSeen(rows: seq<Row>): (all: seq<Seen>)
    ensures |all| == |rows| && forall i :: 0 <= i < |rows| ==> all[i] == Seen(rows[i])
  {
    seq(|rows|, i requires 0 <= i < |rows| => Seen(rows[i]))
  }

  lemma {:induction false} ReadLength(p: Plan, st: Position)
    requires Fits(p, st)
    ensures |Read(p, st)| == Left(p, st)
    decreases Left(p, st)
  {
    StepLeft(p, st);
    if Step(p, st).1 {
      ReadLength(p, Step(p, st).0);
    }
  }

  // ---- operands with rows ----

  /** Every left side is at a row. */
  predicate Going(p: Plan, st: Position)
    requires Fits(p, st)
  {
    match p
    case TablePlan(_) => true
    case Product(left, right) => Going(left, st.left) && OnRow(left, st.left) && Going(right, st.right)
  }

  /** The rows still to come. */
  function Ahead(p: Plan, st: Position): seq<Row>
    requires Fits(p, st) && Going(p, st)
  {
    match p
    case TablePlan(rows) => if st.pos < |rows| then rows[st.pos + 1..] else []
    case Product(left, right) =>
      With(Current(left, st.left), Ahead(right, st.right)) + Cross(Ahead(left, st.left), Rows(right))
  }

  /** The scan is at the first of these rows, and the others are ahead. */
  predicate Yields(p: Plan, st: Position, rows: seq<Row>)
    requires Fits(p, st)
  {
    Going(p, st) && OnRow(p, st) && rows != [] && Current(p, st) == rows[0] && Ahead(p, st) == rows[1..]
  }

  lemma {:induction false} AheadStep(l: Row, rights: seq<Row>, rest: seq<Row>)
    requires rights != []
    ensures (With(l, rights) + rest)[0] == Merge(l, rights[0])
    ensures (With(l, rights) + rest)[1..] == With(l, rights[1..]) + rest
  {
    assert With(l, rights)[1..] == With(l, rights[1..]);
  }

  lemma {:induction false} NextLeft(lefts: seq<Row>, rights: seq<Row>)
    requires lefts != []
    ensures if rights == [] then Cross(lefts, rights) == []
            else Cross(lefts, rights) != [] && Cross(lefts, rights)[0] == Merge(lefts[0], rights[0]) &&
                 Cross(lefts, rights)[1..] == With(lefts[0], rights[1..]) + Cross(lefts[1..], rights)
  {
    if rights == [] {
      CrossNone(lefts);
    } else {
      AheadStep(lefts[0], rights, Cross(lefts[1..], rights));
    }
  }

  lemma {:induction false} RowsThere(p: Plan)
    requires AllHaveRows(p)
    ensures Rows(p) != []
  {
    match p
    case TablePlan(_) =>
    case Product(left, right) =>
      RowsThere(left);
      RowsThere(right);
  }

  lemma {:induction false} NoRows(p: Plan)
    requires !AllHaveRows(p)
    ensures Rows(p) == []
  {
    match p
    case TablePlan(_) =>
    case Product(left, right) =>
      if AllHaveRows(left) {
        NoRows(right);
        CrossNone(Rows(left));
      } else {
        NoRows(left);
      }
  }

  /** After BeforeFirst all rows are ahead. */
  lemma {:induction false} StartGoes(p: Plan)
    requires AllHaveRows(p)
    ensures Going(p, Start(p)) && Ahead(p, Start(p)) == Rows(p)
    decreases p, 1
  {
    match p
    case TablePlan(rows) =>
    case Product(left, right) =>
      StartGoes(left);
      StartGoes(right);
      RowsThere(left);
      StepGoes(left, Start(left));
  }

  /** Next goes to the next of the rows ahead, exactly if there is one. */
  lemma {:induction false} StepGoes(p: Plan, st: Position)
    requires AllHaveRows(p) && Fits(p, st) && Going(p, st)
    ensures var (st', ok) := Step(p, st);
            (ok <==> Ahead(p, st) != []) && (ok ==> Yields(p, st', Ahead(p, st)))
    decreases p, 0
  {
    match p
    case TablePlan(rows) =>
    case Product(left, right) =>
      hide Merge, Cross, AllHaveRows;
      StepGoes(right, st.right);
      var l, rights, lefts := Current(left, st.left), Ahead(right, st.right), Ahead(left, st.left);
      if rights != [] {
        AheadStep(l, rights, Cross(lefts, Rows(right)));
      } else {
        StepGoes(left, st.left);
        StartGoes(right);
        RowsThere(right);
        StepGoes(right, Start(right));
        if lefts != [] {
          NextLeft(lefts, Rows(right));
        }
        assert With(l, rights) == [];
      }
  }

  lemma {:induction false} ReadAhead(p: Plan, st: Position)
    requires AllHaveRows(p) && Fits(p, st) && Going(p, st)
    ensures Read(p, st) == AllSeen(Ahead(p, st))
    decreases Left(p, st)
  {
    hide Step, Going, Ahead, Left, Fits, OnRow, Current, AllHaveRows;
    StepGoes(p, st);
    StepLeft(p, st);
    var (st', ok) := Step(p, st);
    if ok {
      ReadAhead(p, st');
      assert AllSeen(Ahead(p, st)) == [Seen(Ahead(p, st)[0])] + AllSeen(Ahead(p, st)[1..]);
    }
  }

  /** A client reads the rows of the plan exactly if every operand has a row or the last one has none. */
  lemma {:induction false} ReadsRowsIff(p: Plan)
    ensures Read(p, Start(p)) == AllSeen(Rows(p)) <==> AllHaveRows(p) || Operand(p) == []
  {
    if AllHaveRows(p) {
      StartGoes(p);
      ReadAhead(p, Start(p));
    } else {
      NoRows(p);
      NoneLeft(p, Start(p));
      ReadLength(p, Start(p));
    }
  }

  /** An empty operand on the left of a product shows a row that is none, and on the right it does not. */
  lemma EmptyLeftMisread(row: Row)
    ensures Rows(Product(TablePlan([]), TablePlan([row]))) == Rows(Product(TablePlan([row]), TablePlan([]))) == []
    ensures var left := Product(TablePlan([]), TablePlan([row])); Read(left, Start(left)) == [NoRow]
    ensures var right := Product(TablePlan([row]), TablePlan([])); Read(right, Start(right)) == []
  {
    var none, one := TablePlan([]), TablePlan([row]);
    assert Cross([row], []) == With(row, []) + Cross([row][1..], []);
    var p := Product(none, one);
    assert Start(none) == At(-1) && Step(none, At(-1)) == (At(0), false);
    assert Step(one, At(-1)) == (At(0), true) && Step(one, At(0)) == (At(1), false);
    assert Start(p) == Pair(At(0), At(-1));
    assert Step(p, Start(p)) == (Pair(At(0), At(0)), true);
    assert Step(p, Pair(At(0), At(0))) == (Pair(At(0), At(-1)), false);
    assert Read(p, Pair(At(0), At(0))) == [];
    assert !OnRow(none, At(0));
    assert Read(p, Start(p)) == [SeenAt(p, Pair(At(0), At(0)))] + Read(p, Pair(At(0), At(0)));
  }

  // ---- the scans ----

  /** A scan over an operand, or a product of two scans. */
  class ScanTree {
    const plan: Plan
    const left: ScanTree?
    const right: ScanTree?
    var pos: int
    ghost const repr: set<object>

    ghost predicate Valid()
      reads repr
      decreases plan
    {
      && this in repr
      && match plan
         case TablePlan(rows) => -1 <= pos <= |rows|
         case Product(l, r) =>
           && left != null && right != null && left.plan == l && right.plan == r
           && left in repr && right in repr && left.repr <= repr && right.repr <= repr
           && this !in left.repr && this !in right.repr && left.repr !! right.repr
           && left.Valid() && right.Valid()
    }

    ghost function State(): (st: Position)
      requires Valid()
      reads repr
      ensures Fits(plan, st)
      decreases plan
    {
      match plan
      case TablePlan(_) => At(pos)
      case Product(_, _) => Pair(left.State(), right.State())
    }

    constructor Leaf(rows: seq<Row>)
      ensures Valid() && fresh(repr) && plan == TablePlan(rows) && State() == Start(plan)
    {
      plan, left, right, pos, repr := TablePlan(rows), null, null, -1, {this};
    }

    constructor Node(left: ScanTree, right: ScanTree)
      requires left.Valid() && right.Valid() && left.repr !! right.repr
      ensures Valid() && fresh(repr - left.repr - right.repr) && plan == Product(left.plan, right.plan)
      ensures State() == Pair(left.State(), right.State())
    {
      this.left, this.right, pos := left, right, -1;
      plan, repr := Product(left.plan, right.plan), {this} + left.repr + right.repr;
    }

    method BeforeFirst()
      requires Valid()
      modifies repr
      ensures Valid() && State() == Start(plan)
      decreases plan, 1
    {
      match plan
      case TablePlan(_) => pos := -1;
      case Product(_, _) =>
        left.BeforeFirst();
        var first := left.Next();
        right.BeforeFirst();
    }

    method Next() returns (ok: bool)
      requires Valid()
      modifies repr
      ensures Valid() && (State(), ok) == Step(plan, old(State()))
      decreases plan, 0
    {
      match plan
      case TablePlan(rows) =>
        if pos < |rows| {
          pos := pos + 1;
          return pos < |rows|;
        }
        return false;
      case Product(_, _) =>
        ok := right.Next();
        if !ok {
          right.BeforeFirst();
          ok := left.Next();
          if ok {
            ok := right.Next();
          }
        }
    }

    function GetRow(): (row: Row)
      requires Valid() && OnRow(plan, State())
      reads repr
      ensures row == Current(plan, State())
      decreases plan
    {
      match plan
      case TablePlan(rows) => rows[pos]
      case Product(_, _) => Merge(left.GetRow(), right.GetRow())
    }
  }

  /** Plan::Open: every scan of the tree is before its first row. */
  method Open(plan: Plan) returns (scan: ScanTree)
    ensures scan.Valid() && fresh(scan.repr) && scan.plan == plan && scan.State() == Start(plan)
    decreases plan
  {
    if plan.TablePlan? {
      scan := new ScanTree.Leaf(plan.rows);
    } else {
      var left := Open(plan.left);
      var right := Open(plan.right);
      scan := new ScanTree.Node(left, right);
      scan.BeforeFirst();
    }
  }

  // ---- clients ----

  /** The scan is at this row, and a client will read the rows of `rest` after it. */
  ghost predicate Shows(p: Plan, st: Position, row: Row, rest: seq<Row>)
    requires Fits(p, st)
  {
    OnRow(p, st) && Current(p, st) == row && Read(p, st) == AllSeen(rest)
  }

  lemma {:induction false} StepShows(p: Plan, st: Position, rest: seq<Row>)
    requires Fits(p, st) && Read(p, st) == AllSeen(rest)
    ensures var (st', ok) := Step(p, st); (ok <==> rest != []) && (ok ==> Shows(p, st', rest[0], rest[1..]))
  {
    var (st', ok) := Step(p, st);
    StepLeft(p, st);
    if ok {
      assert Read(p, st)[0] == SeenAt(p, st') == Seen(rest[0]);
      assert Read(p, st') == Read(p, st)[1..] == AllSeen(rest[1..]);
    }
  }

  lemma TakeFirst(rows: seq<Row>, row: Row, rest: seq<Row>)
    requires rest != [] && row == rest[0]
    ensures rows + [row] + rest[1..] == rows + rest
  {
  }

  /** A client's loop over the scan, for a plan whose rows it can read (`ReadsRowsIff`). */
  method ReadRows(plan: Plan) returns (rows: seq<Row>)
    requires AllHaveRows(plan) || Operand(plan) == []
    ensures rows == Rows(plan)
  {
    ghost var rest := Rows(plan);
    ReadsRowsIff(plan);
    hide Step, OnRow, Current, Fits, Read, AllSeen, AllHaveRows, Operand, Rows, ScanTree.Valid, ScanTree.State;
    var scan := Open(plan);
    rows := [];
    StepShows(plan, scan.State(), rest);
    var more := scan.Next();
    while more
      invariant scan.Valid() && fresh(scan.repr) && scan.plan == plan && more == (rest != [])
      invariant more ==> Shows(plan, scan.State(), rest[0], rest[1..])
      invariant rows + rest == Rows(plan)
      decreases |rest|
    {
      var row := scan.GetRow();
      TakeFirst(rows, row, rest);
      rows, rest := rows + [row], rest[1..];
      StepShows(plan, scan.State(), rest);
      more := scan.Next();
    }
  }

  /** SelectScan::Next over the tree: on to the next row ahead that satisfies the predicate. */
  method NextSelected(scan: ScanTree, terms: seq<Term>, ghost rest: seq<Row>) returns (ok: bool, ghost later: seq<Row>)
    requires scan.Valid() && Read(scan.plan, scan.State()) == AllSeen(rest) && AllKnow(rest, terms)
    modifies scan.repr
    ensures scan.Valid() && AllKnow(later, terms) && |later| <= |rest| && ok == (Selected(rest, terms) != [])
    ensures ok ==> Shows(scan.plan, scan.State(), Selected(rest, terms)[0], later)
    ensures ok ==> Selected(later, terms) == Selected(rest, terms)[1..] && |later| < |rest|
  {
    hide Step, OnRow, Current, Fits, Read, AllSeen, KnowsTerms, ScanTree.Valid, ScanTree.State;
    later := rest;
    StepShows(scan.plan, scan.State(), rest);
    ok := scan.Next();
    while ok
      invariant scan.Valid() && AllKnow(later, terms) && |later| <= |rest| && ok == (later != [])
      invariant Selected(later, terms) == Selected(rest, terms)
      invariant ok ==> Shows(scan.plan, scan.State(), later[0], later[1..])
      decreases |later|
    {
      var row := scan.GetRow();
      later := later[1..];
      var good := IsSatisfied(terms, row);
      if good {
        return;
      }
      StepShows(scan.plan, scan.State(), later);
      ok := scan.Next();
    }
  }

  /** What has been read, the current row and the selected rows ahead make up the whole answer. */
  ghost predicate Answering(all: seq<Row>, answer: seq<Row>, more: bool, row: Row, rest: seq<Row>, terms: seq<Term>,
                            fields: set<string>)
    requires AllKnow(rest, terms)
  {
    Projected(all, fields) == if more then answer + [ProjectRow(row, fields)] + Projected(Selected(rest, terms), fields)
                              else answer
  }

  /** The first of the selected rows becomes the current one. */
  lemma {:induction false} NextAnswer(all: seq<Row>, answer: seq<Row>, selected: seq<Row>, more: bool, row: Row,
                                      later: seq<Row>, terms: seq<Term>, fields: set<string>)
    requires AllKnow(later, terms) && Projected(all, fields) == answer + Projected(selected, fields)
    requires more == (selected != []) && (more ==> row == selected[0] && Selected(later, terms) == selected[1..])
    ensures Answering(all, answer, more, row, later, terms, fields)
  {
    if more {
      MapCons((r: Row) => ProjectRow(r, fields), row, selected[1..]);
      assert selected == [row] + selected[1..];
    }
  }

  /** The client's next turn: the answer is complete, or goes on with the current row. */
  method NextTurn(scan: ScanTree, terms: seq<Term>, fields: set<string>, ghost all: seq<Row>, ghost answer: seq<Row>,
                  ghost rest: seq<Row>) returns (more: bool, ghost row: Row, ghost later: seq<Row>)
    requires scan.Valid() && Read(scan.plan, scan.State()) == AllSeen(rest) && AllKnow(rest, terms)
    requires Projected(all, fields) == answer + Projected(Selected(rest, terms), fields)
    modifies scan.repr
    ensures scan.Valid() && AllKnow(later, terms) && Answering(all, answer, more, row, later, terms, fields)
    ensures |later| <= |rest| && (more ==> Shows(scan.plan, scan.State(), row, later) && |later| < |rest|)
  {
    hide Projected, MapSeq, Shows, Answering, Read, AllSeen;
    more, later := NextSelected(scan, terms, rest);
    row := if more then Selected(rest, terms)[0] else map[];
    NextAnswer(all, answer, Selected(rest, terms), more, row, later, terms, fields);
  }

  /** A client's loop over the projection of the selection. */
  method ReadAnswer(plan: Plan, terms: seq<Term>, fields: set<string>) returns (answer: seq<Row>)
    requires (AllHaveRows(plan) || Operand(plan) == []) && AllKnow(Rows(plan), terms)
    ensures answer == Projected(Selected(Rows(plan), terms), fields) && |answer| == |Selected(Rows(plan), terms)|
    ensures forall i :: 0 <= i < |answer| ==> ShowsFields(answer[i], Selected(Rows(plan), terms)[i], fields)
  {
    ghost var all := Selected(Rows(plan), terms);
    var scan := Open(plan);
    ReadsRowsIff(plan);
    ProjectedRows(all, fields);
    answer := [];
    hide Selected, Projected, MapSeq, Read, AllSeen, OnRow, Current, Fits, Start, Rows, AllHaveRows, Operand;
    hide ScanTree.Valid, ScanTree.State, KnowsTerms;
    var more: bool;
    ghost var row, rest;
    more, row, rest := NextTurn(scan, terms, fields, all, answer, Rows(plan));
    while more
      invariant scan.Valid() && fresh(scan.repr) && scan.plan == plan && AllKnow(rest, terms)
      invariant more ==> Shows(plan, scan.State(), row, rest)
      invariant Answering(all, answer, more, row, rest, terms, fields)
      decreases |rest|, more
    {
      var current := scan.GetRow();
      answer := answer + [ProjectRow(current, fields)];
      more, row, rest := NextTurn(scan, terms, fields, all, answer, rest);
    }
  }

  lemma {:induction false} OperandsHaveRows(plans: seq<Plan>)
    requires plans != [] && forall i :: 0 <= i < |plans| ==> AllHaveRows(plans[i])
    ensures AllHaveRows(LeftToRight(plans))
  {
    if |plans| > 1 {
      OperandsHaveRows(plans[..|plans| - 1]);
    }
  }

  /** Plans with the same bag of rows both have rows in every operand, or both do not. */
  lemma {:induction false} SameHaveRows(better: Plan, basic: Plan)
    requires multiset(Rows(better)) == multiset(Rows(basic)) && AllHaveRows(basic)
    ensures AllHaveRows(better)
  {
    RowsThere(basic);
    assert Rows(basic)[0] in multiset(Rows(better));
    if !AllHaveRows(better) {
      NoRows(better);
    }
  }

  /** An answer is the asked fields of one of the rows that satisfy the predicate. */
  ghost predicate Answers(answer: Row, rows: seq<Row>, terms: seq<Term>, fields: set<string>) {
    exists row :: row in rows && KnowsTerms(row, terms) && Satisfied(terms, row) && ShowsFields(answer, row, fields)
  }

  lemma {:induction false} AnswersOf(answer: seq<Row>, rows: seq<Row>, terms: seq<Term>, fields: set<string>, i: nat)
    requires AllKnow(rows, terms) && i < |answer|
    requires multiset(answer) == multiset(Projected(Selected(rows, terms), fields))
    ensures Answers(answer[i], rows, terms, fields)
  {
    var selected := Selected(rows, terms);
    assert answer[i] in multiset(Projected(selected, fields));
    var j :| 0 <= j < |Projected(selected, fields)| && Projected(selected, fields)[j] == answer[i];
    ProjectedRows(selected, fields);
    SelectedRows(rows, terms, selected[j]);
  }

  /** BetterQueryPlanner's plan, opened and read: the bag of answers that the basic plan gives. */
  method AnswerQuery(plans: seq<Plan>, blocksAccessed: Plan -> int, terms: seq<Term>, fields: set<string>,
                     ghost names: seq<set<string>>) returns (answer: seq<Row>)
    requires plans != [] && Operands(plans, names) && (forall i :: 0 <= i < |plans| ==> AllHaveRows(plans[i]))
    requires AllKnow(Rows(LeftToRight(plans)), terms)
    ensures multiset(answer) == multiset(Projected(Selected(Rows(LeftToRight(plans)), terms), fields))
    ensures forall i :: 0 <= i < |answer| ==> Answers(answer[i], Rows(LeftToRight(plans)), terms, fields)
    ensures fields <= Union(names) ==> forall i :: 0 <= i < |answer| ==> answer[i].Keys == fields
  {
    var plan := BetterPlan(plans, blocksAccessed, names);
    OperandsHaveRows(plans);
    SameHaveRows(plan, LeftToRight(plans));
    SameAnswer(plan, LeftToRight(plans), terms, fields);
    answer := ReadAnswer(plan, terms, fields);
    forall i | 0 <= i < |answer| ensures Answers(answer[i], Rows(LeftToRight(plans)), terms, fields) {
      AnswersOf(answer, Rows(LeftToRight(plans)), terms, fields, i);
    }
    LeftToRightFields(plans, names);
  }
}
