/** Products of relations in any order, and the join through an index, as bags of rows. */
module Joins {
  import opened QueryText
  import opened Tables
  import opened Statements

  /** A product row: a field is looked up on the left first. */
  function Merge(l: Row, r: Row): Row {
    r + l
  }

  /** A field of both sides has the left one's value. */
  lemma {:induction false} Merged(l: Row, r: Row, name: string)
    ensures name in Merge(l, r) <==> name in l || name in r
    ensures name in Merge(l, r) ==> Merge(l, r)[name] == if name in l then l[name] else r[name]
  {
  }

  /** One left row with every right row. */
  function With(l: Row, rights: seq<Row>): (rows: seq<Row>)
    ensures |rows| == |rights| && forall i :: 0 <= i < |rights| ==> rows[i] == Merge(l, rights[i])
  {
    seq(|rights|, i requires 0 <= i < |rights| => Merge(l, rights[i]))
  }

  /** The nested-loop product. */
  function Cross(lefts: seq<Row>, rights: seq<Row>): seq<Row> {
    if lefts == [] then [] else With(lefts[0], rights) + Cross(lefts[1..], rights)
  }

  /** Every left row meets every right row: the right one changes fastest. */
  lemma {:induction false} CrossAt(lefts: seq<Row>, rights: seq<Row>, i: nat, j: nat)
    requires i < |lefts| && j < |rights|
    ensures i * |rights| + j < |Cross(lefts, rights)| == |lefts| * |rights|
    ensures Cross(lefts, rights)[i * |rights| + j] == Merge(lefts[i], rights[j])
  {
    CrossLength(lefts, rights);
    Place(|lefts|, |rights|, i, j);
    if i > 0 {
      CrossAt(lefts[1..], rights, i - 1, j);
    }
  }

  lemma {:induction false} Place(m: nat, n: nat, i: nat, j: nat)
    requires i < m && j < n
    ensures i * n + j < m * n && (i == 0 ==> i * n == 0) && (i > 0 ==> i * n + j == n + ((i - 1) * n + j))
  {
    assert m * n == n + (m - 1) * n;
    if i > 0 {
      Place(m - 1, n, i - 1, j);
      assert i * n == n + (i - 1) * n;
    }
  }

  lemma {:induction false} CrossLength(lefts: seq<Row>, rights: seq<Row>)
    ensures |Cross(lefts, rights)| == |lefts| * |rights|
  {
    if lefts != [] {
      CrossLength(lefts[1..], rights);
      assert |lefts| * |rights| == |rights| + (|lefts| - 1) * |rights|;
    }
  }

  datatype Plan = TablePlan(rows: seq<Row>) | Product(left: Plan, right: Plan)

  function Rows(p: Plan): seq<Row> {
    match p
    case TablePlan(rows) => rows
    case Product(left, right) => Cross(Rows(left), Rows(right))
  }

  // ---- fields ----

  ghost predicate FieldsOf(rows: seq<Row>, names: set<string>) {
    forall i :: 0 <= i < |rows| ==> rows[i].Keys == names
  }

  /** Each operand has its own fields. */
  ghost predicate Operands(plans: seq<Plan>, names: seq<set<string>>) {
    && |plans| == |names|
    && (forall i :: 0 <= i < |plans| ==> FieldsOf(Rows(plans[i]), names[i]))
    && (forall i, j :: 0 <= i < j < |plans| ==> names[i] !! names[j])
  }

  function Union(names: seq<set<string>>): (all: set<string>)
    ensures forall n :: n in all <==> exists i :: 0 <= i < |names| && n in names[i]
  {
    if names == [] then {} else Union(names[..|names| - 1]) + names[|names| - 1]
  }

  lemma {:induction false} CrossFields(lefts: seq<Row>, rights: seq<Row>, ln: set<string>, rn: set<string>)
    requires FieldsOf(lefts, ln) && FieldsOf(rights, rn)
    ensures FieldsOf(Cross(lefts, rights), ln + rn)
  {
    if lefts != [] {
      CrossFields(lefts[1..], rights, ln, rn);
      var head: seq<Row>, tail: seq<Row> := With(lefts[0], rights), Cross(lefts[1..], rights);
      forall i | 0 <= i < |Cross(lefts, rights)| ensures Cross(lefts, rights)[i].Keys == ln + rn {
        if i < |head| {
          assert rights[i].Keys == rn && lefts[0].Keys == ln;
        } else {
          assert Cross(lefts, rights)[i] == tail[i - |head|];
        }
      }
    }
  }

  // ---- bags ----

  function MapSeq<A, B>(f: A -> B, s: seq<A>): seq<B> {
    if s == [] then [] else [f(s[0])] + MapSeq(f, s[1..])
  }

  lemma {:induction false} WithoutOne<A>(s: seq<A>, j: nat)
    requires j < |s|
    ensures j == 0 ==> s[..j] + s[j + 1..] == s[1..]
    ensures j > 0 ==> (s[..j] + s[j + 1..])[0] == s[0]
    ensures j > 0 ==> (s[..j] + s[j + 1..])[1..] == s[1..][..j - 1] + s[1..][j..]
    ensures multiset(s) == multiset{s[j]} + multiset(s[..j] + s[j + 1..])
  {
    assert s == s[..j] + [s[j]] + s[j + 1..];
  }

  lemma {:induction false} MapPick<A, B>(f: A -> B, s: seq<A>, j: nat, rest: seq<A>)
    requires j < |s| && rest == s[..j] + s[j + 1..]
    ensures multiset(MapSeq(f, s)) == multiset{f(s[j])} + multiset(MapSeq(f, rest))
  {
    WithoutOne(s, j);
    if j > 0 {
      MapPick(f, s[1..], j - 1, rest[1..]);
    }
  }

  /** Equal bags have equal images. */
  lemma {:induction false} MapBag<A, B>(f: A -> B, a: seq<A>, b: seq<A>)
    requires multiset(a) == multiset(b)
    ensures multiset(MapSeq(f, a)) == multiset(MapSeq(f, b))
  {
    if a == [] {
      assert |multiset(b)| == 0;
      assert b == [];
    } else {
      assert a[0] in multiset(b);
      var j :| 0 <= j < |b| && b[j] == a[0];
      var rest := b[..j] + b[j + 1..];
      WithoutOne(a, 0);
      WithoutOne(b, j);
      assert multiset(rest) == multiset(b) - multiset{a[0]};
      assert multiset(a[1..]) == multiset(a) - multiset{a[0]};
      MapBag(f, a[1..], rest);
      MapPick(f, b, j, rest);
    }
  }

  /** The product as a bag does not depend on the order of the left rows. */
  lemma {:induction false} CrossLeftOrder(a: seq<Row>, a': seq<Row>, b: seq<Row>)
    requires multiset(a) == multiset(a')
    ensures multiset(Cross(a, b)) == multiset(Cross(a', b))
  {
    if a == [] {
      assert |multiset(a')| == 0;
      assert a' == [];
    } else {
      assert a[0] in multiset(a');
      var j :| 0 <= j < |a'| && a'[j] == a[0];
      var rest := a'[..j] + a'[j + 1..];
      WithoutOne(a, 0);
      WithoutOne(a', j);
      assert multiset(rest) == multiset(a') - multiset{a[0]};
      assert multiset(a[1..]) == multiset(a) - multiset{a[0]};
      CrossLeftOrder(a[1..], rest, b);
      CrossPick(a', j, b, rest);
    }
  }

  lemma {:induction false} CrossPick(a: seq<Row>, j: nat, b: seq<Row>, rest: seq<Row>)
    requires j < |a| && rest == a[..j] + a[j + 1..]
    ensures multiset(Cross(a, b)) == multiset(With(a[j], b)) + multiset(Cross(rest, b))
  {
    WithoutOne(a, j);
    hide With;
    if j > 0 {
      CrossPick(a[1..], j - 1, b, rest[1..]);
    }
  }

  /** With different fields, the sides of a product can change places. */
  lemma {:induction false} CrossSwap(a: seq<Row>, b: seq<Row>, an: set<string>, bn: set<string>)
    requires FieldsOf(a, an) && FieldsOf(b, bn) && an !! bn
    ensures multiset(Cross(a, b)) == multiset(Cross(b, a))
  {
    if a == [] {
      CrossNone(b);
    } else {
      CrossSwap(a[1..], b, an, bn);
      CrossColumn(a, b, an, bn);
    }
  }

  lemma {:induction false} CrossNone(b: seq<Row>)
    ensures Cross(b, []) == []
  {
    if b != [] {
      CrossNone(b[1..]);
    }
  }

  /** The first row on the right meets every row on the left. */
  lemma {:induction false} CrossColumn(a: seq<Row>, b: seq<Row>, an: set<string>, bn: set<string>)
    requires a != [] && FieldsOf(a, an) && FieldsOf(b, bn) && an !! bn
    ensures multiset(Cross(b, a)) == multiset(With(a[0], b)) + multiset(Cross(b, a[1..]))
  {
    if b == [] {
    } else {
      CrossColumn(a, b[1..], an, bn);
      MergeSwap(a[0], b[0], an, bn);
      WithHead(b[0], a);
      WithHead(a[0], b);
      hide With, Merge;
      Corner(multiset{Merge(a[0], b[0])}, multiset(With(b[0], a[1..])), multiset(With(a[0], b[1..])),
             multiset(Cross(b[1..], a[1..])));
    }
  }

  lemma {:induction false} WithHead(l: Row, rights: seq<Row>)
    requires rights != []
    ensures multiset(With(l, rights)) == multiset{Merge(l, rights[0])} + multiset(With(l, rights[1..]))
  {
    assert With(l, rights) == [Merge(l, rights[0])] + With(l, rights[1..]);
  }

  lemma Corner(x: multiset<Row>, a: multiset<Row>, b: multiset<Row>, rest: multiset<Row>)
    ensures (x + a) + (b + rest) == (x + b) + (a + rest)
  {
  }

  lemma MergeSwap(l: Row, r: Row, ln: set<string>, rn: set<string>)
    requires l.Keys == ln && r.Keys == rn && ln !! rn
    ensures Merge(l, r) == Merge(r, l)
  {
  }

  // ---- plans ----

  /** Products from left to right. */
  function LeftToRight(plans: seq<Plan>): Plan
    requires plans != []
  {
    if |plans| == 1 then plans[0] else Product(LeftToRight(plans[..|plans| - 1]), plans[|plans| - 1])
  }

  /** BasicQueryPlanner: the product of the operands in the order of the query. */
  method BasicPlan(plans: seq<Plan>) returns (plan: Plan)
    requires plans != []
    ensures plan == LeftToRight(plans)
  {
    plan := plans[0];
    var i := 1;
    while i < |plans|
      invariant 1 <= i <= |plans| && plan == LeftToRight(plans[..i])
    {
      assert plans[..i + 1][..i] == plans[..i];
      plan := Product(plan, plans[i]);
      i := i + 1;
    }
    assert plans[..i] == plans;
  }

  lemma {:induction false} LeftToRightFields(plans: seq<Plan>, names: seq<set<string>>)
    requires plans != [] && Operands(plans, names)
    ensures FieldsOf(Rows(LeftToRight(plans)), Union(names))
  {
    var n := |plans| - 1;
    if n == 0 {
      assert Union(names[..0]) == {} && Union(names) == names[0];
    } else {
      LeftToRightFields(plans[..n], names[..n]);
      CrossFields(Rows(LeftToRight(plans[..n])), Rows(plans[n]), Union(names[..n]), names[n]);
    }
  }

  /** The next operand may go on either side. */
  lemma {:induction false} NextOperand(plan: Plan, basic: Plan, next: Plan, names: set<string>, more: set<string>)
    requires multiset(Rows(plan)) == multiset(Rows(basic))
    requires FieldsOf(Rows(basic), names) && FieldsOf(Rows(next), more) && names !! more
    ensures multiset(Rows(Product(plan, next))) == multiset(Rows(Product(basic, next)))
    ensures multiset(Rows(Product(next, plan))) == multiset(Rows(Product(basic, next)))
  {
    CrossLeftOrder(Rows(plan), Rows(basic), Rows(next));
    SameFields(Rows(plan), Rows(basic), names);
    CrossSwap(Rows(next), Rows(plan), more, names);
  }

  lemma {:induction false} SameFields(a: seq<Row>, b: seq<Row>, names: set<string>)
    requires multiset(a) == multiset(b) && FieldsOf(b, names)
    ensures FieldsOf(a, names)
  {
    forall i | 0 <= i < |a| ensures a[i].Keys == names {
      assert a[i] in multiset(a);
      assert a[i] in b;
    }
  }

  /** One operand after the other is put on the side that the estimates prefer, on the right if they prefer none. */
  ghost predicate Cheaper(plan: Plan, plans: seq<Plan>, blocksAccessed: Plan -> int)
    requires plans != []
  {
    var n := |plans| - 1;
    if n == 0 then plan == plans[0]
    else
      plan.Product? &&
      if plan.right == plans[n] && Cheaper(plan.left, plans[..n], blocksAccessed) then
        blocksAccessed(plan) <= blocksAccessed(Product(plan.right, plan.left))
      else
        && plan.left == plans[n] && Cheaper(plan.right, plans[..n], blocksAccessed)
        && blocksAccessed(plan) < blocksAccessed(Product(plan.right, plan.left))
  }

  /** BetterQueryPlanner: whichever side the estimates prefer, the rows are those of the basic plan. */
  method BetterPlan(plans: seq<Plan>, blocksAccessed: Plan -> int, ghost names: seq<set<string>>) returns (plan: Plan)
    requires plans != [] && Operands(plans, names)
    ensures multiset(Rows(plan)) == multiset(Rows(LeftToRight(plans))) && Cheaper(plan, plans, blocksAccessed)
  {
    plan := plans[0];
    var i := 1;
    while i < |plans|
      invariant 1 <= i <= |plans| && multiset(Rows(plan)) == multiset(Rows(LeftToRight(plans[..i])))
      invariant Cheaper(plan, plans[..i], blocksAccessed)
    {
      ghost var basic := LeftToRight(plans[..i]);
      LeftToRightFields(plans[..i], names[..i]);
      assert Union(names[..i]) !! names[i];
      NextOperand(plan, basic, plans[i], Union(names[..i]), names[i]);
      assert plans[..i + 1][..i] == plans[..i];
      var choice1, choice2 := Product(plans[i], plan), Product(plan, plans[i]);
      plan := if blocksAccessed(choice1) < blocksAccessed(choice2) then choice1 else choice2;
      i := i + 1;
    }
    assert plans[..i] == plans;
  }

  // ---- selection and projection ----

  ghost predicate AllKnow(rows: seq<Row>, terms: seq<Term>) {
    forall i :: 0 <= i < |rows| ==> KnowsTerms(rows[i], terms)
  }

  function Selected(rows: seq<Row>, terms: seq<Term>): seq<Row>
    requires forall i :: 0 <= i < |rows| ==> KnowsTerms(rows[i], terms)
  {
    if rows == [] then [] else (if Satisfied(terms, rows[0]) then [rows[0]] else []) + Selected(rows[1..], terms)
  }

  function ProjectRow(row: Row, fields: set<string>): Row {
    map name | name in row && name in fields :: row[name]
  }

  function Projected(rows: seq<Row>, fields: set<string>): seq<Row> {
    MapSeq(row => ProjectRow(row, fields), rows)
  }

  /** The answer's row has exactly those of the asked fields that the row has, with its values. */
  ghost predicate ShowsFields(answer: Row, row: Row, fields: set<string>) {
    && (forall name :: name in answer <==> name in row && name in fields)
    && forall name :: name in answer ==> answer[name] == row[name]
  }

  lemma {:induction false} ProjectedRows(rows: seq<Row>, fields: set<string>)
    ensures |Projected(rows, fields)| == |rows|
    ensures forall i :: 0 <= i < |rows| ==> ShowsFields(Projected(rows, fields)[i], rows[i], fields)
  {
    if rows != [] {
      ProjectedRows(rows[1..], fields);
      var f := (row: Row) => ProjectRow(row, fields);
      assert Projected(rows, fields) == [ProjectRow(rows[0], fields)] + Projected(rows[1..], fields);
    }
  }

  /** The selected rows are exactly those that satisfy the predicate, in order and as often. */
  lemma {:induction false} SelectedRows(rows: seq<Row>, terms: seq<Term>, row: Row)
    requires AllKnow(rows, terms)
    ensures row in Selected(rows, terms) <==> row in rows && KnowsTerms(row, terms) && Satisfied(terms, row)
  {
    SelectedCount(rows, terms, row);
    assert row in Selected(rows, terms) <==> row in multiset(Selected(rows, terms));
    assert row in rows <==> row in multiset(rows);
    assert forall i :: 0 <= i < |rows| ==> KnowsTerms(rows[i], terms);
  }

  lemma {:induction false} SelectedCount(rows: seq<Row>, terms: seq<Term>, row: Row)
    requires AllKnow(rows, terms)
    ensures multiset(Selected(rows, terms))[row] ==
            if KnowsTerms(row, terms) && Satisfied(terms, row) then multiset(rows)[row] else 0
  {
    if rows != [] {
      SelectedCount(rows[1..], terms, row);
      assert rows == [rows[0]] + rows[1..];
    }
  }

  lemma {:induction false} SelectedBag(a: seq<Row>, b: seq<Row>, terms: seq<Term>)
    requires AllKnow(a, terms) && AllKnow(b, terms) && multiset(a) == multiset(b)
    ensures multiset(Selected(a, terms)) == multiset(Selected(b, terms))
  {
    forall row ensures multiset(Selected(a, terms))[row] == multiset(Selected(b, terms))[row] {
      SelectedCount(a, terms, row);
      SelectedCount(b, terms, row);
    }
  }

  /** The answer to a query does not depend on the order of its products. */
  lemma {:induction false} SameAnswer(better: Plan, basic: Plan, terms: seq<Term>, fields: set<string>)
    requires multiset(Rows(better)) == multiset(Rows(basic)) && AllKnow(Rows(basic), terms)
    ensures AllKnow(Rows(better), terms)
    ensures multiset(Projected(Selected(Rows(better), terms), fields)) ==
            multiset(Projected(Selected(Rows(basic), terms), fields))
  {
    forall i | 0 <= i < |Rows(better)| ensures KnowsTerms(Rows(better)[i], terms) {
      assert Rows(better)[i] in multiset(Rows(better));
      assert Rows(better)[i] in Rows(basic);
    }
    SelectedBag(Rows(better), Rows(basic), terms);
    MapBag(row => ProjectRow(row, fields), Selected(Rows(better), terms), Selected(Rows(basic), terms));
  }

  // ---- joining through an index ----

  /** A scan over given rows. */
  class ListScan {
    const rows: seq<Row>
    var pos: int

    ghost predicate Valid()
      reads this
    {
      -1 <= pos <= |rows|
    }

    constructor (rows: seq<Row>)
      ensures this.rows == rows && pos == -1
    {
      this.rows, pos := rows, -1;
    }

    method BeforeFirst()
      modifies this
      ensures pos == -1
    {
      pos := -1;
    }

    method Next() returns (ok: bool)
      requires Valid()
      modifies this
      ensures Valid() && ok == (pos < |rows|) && pos == if old(pos) < |rows| then old(pos) + 1 else old(pos)
    {
      if pos < |rows| {
        pos := pos + 1;
      }
      ok := pos < |rows|;
    }
  }

  /** The right table: its live records in scan order, and an index on one of its fields. */
  datatype Indexed = Indexed(rids: seq<RID>, rows: map<RID, Row>, field: string, index: map<Constant, seq<RID>>) {
    ghost predicate Valid() {
      && (forall i, j :: 0 <= i < j < |rids| ==> rids[i] != rids[j])
      && (forall r :: r in rids <==> r in rows)
      && (forall r :: r in rows ==> field in rows[r])
      && LookupsIn()
      && (forall v: Constant, r: RID :: multiset(Lookup(v))[r] == if r in rows && rows[r][field] == v then 1 else 0)
    }

    ghost predicate LookupsIn() {
      forall v: Constant, r: RID :: r in Lookup(v) ==> r in rows
    }

    function Lookup(v: Constant): seq<RID> {
      if v in index then index[v] else []
    }
  }

  /** One left row with the right row at a place; the join looks fields up on the right first. */
  function JoinRow(l: Row, rows: map<RID, Row>): RID -> Row {
    r => if r in rows then Merge(rows[r], l) else l
  }

  ghost function IndexJoin(lefts: seq<Row>, field: string, right: Indexed): seq<Row>
    requires (forall v: Constant, r: RID :: r in right.Lookup(v) ==> r in right.rows)
    requires forall i :: 0 <= i < |lefts| ==> field in lefts[i]
  {
    if lefts == [] then []
    else MapSeq(JoinRow(lefts[0], right.rows), right.Lookup(lefts[0][field])) + IndexJoin(lefts[1..], field, right)
  }

  function RowsAt(rids: seq<RID>, rows: map<RID, Row>): (all: seq<Row>)
    requires forall r :: r in rids ==> r in rows
    ensures |all| == |rids| && forall i :: 0 <= i < |rids| ==> all[i] == rows[rids[i]]
  {
    if rids == [] then [] else [rows[rids[0]]] + RowsAt(rids[1..], rows)
  }

  /** The places whose records have the key. */
  function WithKey(rids: seq<RID>, rows: map<RID, Row>, name: string, v: Constant): (found: seq<RID>)
    requires forall r :: r in rids ==> r in rows && name in rows[r]
    ensures forall r :: r in found ==> r in rids
  {
    if rids == [] then []
    else (if rows[rids[0]][name] == v then [rids[0]] else []) + WithKey(rids[1..], rows, name, v)
  }

  lemma {:induction false} WithKeyCount(rids: seq<RID>, rows: map<RID, Row>, name: string, v: Constant, r: RID)
    requires forall q :: q in rids ==> q in rows && name in rows[q]
    ensures multiset(WithKey(rids, rows, name, v))[r] == if r in rows && name in rows[r] && rows[r][name] == v
                                                         then multiset(rids)[r] else 0
  {
    if rids != [] {
      WithKeyCount(rids[1..], rows, name, v, r);
      assert rids == [rids[0]] + rids[1..];
    }
  }

  lemma {:induction false} Distinct(rids: seq<RID>, r: RID)
    requires forall i, j :: 0 <= i < j < |rids| ==> rids[i] != rids[j]
    ensures multiset(rids)[r] == if r in rids then 1 else 0
  {
    if rids != [] {
      Distinct(rids[1..], r);
      assert rids == [rids[0]] + rids[1..];
    }
  }

  /** An index that agrees with its table finds the same places as a look at every record. */
  lemma {:induction false} LookupIsWithKey(right: Indexed, v: Constant)
    requires right.Valid()
    ensures multiset(right.Lookup(v)) == multiset(WithKey(right.rids, right.rows, right.field, v))
  {
    forall r ensures multiset(right.Lookup(v))[r] == multiset(WithKey(right.rids, right.rows, right.field, v))[r] {
      WithKeyCount(right.rids, right.rows, right.field, v, r);
      Distinct(right.rids, r);
    }
  }

  /** The term that the join stands for. */
  function OnFields(field: string, rightField: string): seq<Term> {
    [Term(Field(field), Field(rightField))]
  }

  /** For one left row, the selected product rows are those of the records with its key. */
  lemma {:induction false} SelectedOne(l: Row, rids: seq<RID>, rows: map<RID, Row>, field: string, name: string,
                                       ln: set<string>, rn: set<string>)
    requires forall r :: r in rids ==> r in rows && rows[r].Keys == rn
    requires l.Keys == ln && field in ln && name in rn && ln !! rn
    ensures AllKnow(With(l, RowsAt(rids, rows)), OnFields(field, name))
    ensures Selected(With(l, RowsAt(rids, rows)), OnFields(field, name)) ==
            MapSeq(JoinRow(l, rows), WithKey(rids, rows, name, l[field]))
  {
    var terms, all := OnFields(field, name), With(l, RowsAt(rids, rows));
    forall i | 0 <= i < |all| ensures KnowsTerms(all[i], terms) {
      assert rids[i] in rids;
    }
    if rids != [] {
      var more, row := WithKey(rids[1..], rows, name, l[field]), rows[rids[0]];
      SelectedOne(l, rids[1..], rows, field, name, ln, rn);
      MergeSwap(l, row, ln, rn);
      OnFieldsHolds(l, row, field, name, ln, rn);
      assert JoinRow(l, rows)(rids[0]) == Merge(l, row);
      assert all == [Merge(l, row)] + With(l, RowsAt(rids[1..], rows));
      assert WithKey(rids, rows, name, l[field]) == if row[name] == l[field] then [rids[0]] + more else more;
      hide With, RowsAt, Merge, Satisfied, KnowsTerms, AllKnow, JoinRow, OnFields;
      SelectedCons(Merge(l, row), With(l, RowsAt(rids[1..], rows)), terms);
      MapCons(JoinRow(l, rows), rids[0], more);
    }
  }

  lemma {:induction false} SelectedCons(row: Row, rows: seq<Row>, terms: seq<Term>)
    requires KnowsTerms(row, terms) && AllKnow(rows, terms)
    ensures AllKnow([row] + rows, terms)
    ensures Selected([row] + rows, terms) ==
            if Satisfied(terms, row) then [row] + Selected(rows, terms) else Selected(rows, terms)
  {
    assert ([row] + rows)[1..] == rows;
  }

  lemma {:induction false} MapCons<A, B>(f: A -> B, x: A, s: seq<A>)
    ensures MapSeq(f, [x] + s) == [f(x)] + MapSeq(f, s)
  {
    assert ([x] + s)[1..] == s;
  }

  lemma {:induction false} OnFieldsHolds(l: Row, r: Row, field: string, name: string, ln: set<string>, rn: set<string>)
    requires l.Keys == ln && r.Keys == rn && field in ln && name in rn && ln !! rn
    ensures KnowsTerms(Merge(l, r), OnFields(field, name))
    ensures Satisfied(OnFields(field, name), Merge(l, r)) <==> r[name] == l[field]
  {
    var row, terms := Merge(l, r), OnFields(field, name);
    assert name !in l && row[field] == l[field] && row[name] == r[name];
    assert terms[0] == Term(Field(field), Field(name));
    assert Eval(terms[0].lhs, row) == l[field] && Eval(terms[0].rhs, row) == r[name];
  }

  lemma {:induction false} SelectedConcat(a: seq<Row>, b: seq<Row>, terms: seq<Term>)
    requires AllKnow(a, terms) && AllKnow(b, terms)
    ensures AllKnow(a + b, terms) && Selected(a + b, terms) == Selected(a, terms) + Selected(b, terms)
  {
    if a == [] {
      assert a + b == b;
    } else {
      assert (a + b)[1..] == a[1..] + b;
      SelectedConcat(a[1..], b, terms);
    }
  }

  /** The index join yields the rows of the product whose join fields are equal. */
  lemma {:induction false} IndexJoinIsSelect(lefts: seq<Row>, field: string, right: Indexed, ln: set<string>,
                                             rn: set<string>)
    requires right.Valid() && FieldsOf(lefts, ln) && field in ln && ln !! rn
    requires forall r :: r in right.rows ==> right.rows[r].Keys == rn
    requires right.field in rn
    ensures AllKnow(Cross(lefts, RowsAt(right.rids, right.rows)), OnFields(field, right.field))
    ensures multiset(IndexJoin(lefts, field, right)) ==
            multiset(Selected(Cross(lefts, RowsAt(right.rids, right.rows)), OnFields(field, right.field)))
  {
    if lefts != [] {
      var rights, l, terms := RowsAt(right.rids, right.rows), lefts[0], OnFields(field, right.field);
      var v := l[field];
      IndexJoinIsSelect(lefts[1..], field, right, ln, rn);
      SelectedOne(l, right.rids, right.rows, field, right.field, ln, rn);
      LookupIsWithKey(right, v);
      MapBag(JoinRow(l, right.rows), right.Lookup(v), WithKey(right.rids, right.rows, right.field, v));
      hide Selected, With, AllKnow, WithKey, MapSeq, Indexed.Lookup;
      SelectedConcat(With(l, rights), Cross(lefts[1..], rights), terms);
    }
  }

  /** The join loop, for a left side with at least one row. */
  class IndexJoinScan {
    const lhs: ListScan
    const field: string
    const right: Indexed
    var matches: seq<RID>
    var at: int

    ghost predicate Valid()
      reads this, lhs
    {
      && right.LookupsIn() && (forall i :: 0 <= i < |lhs.rows| ==> field in lhs.rows[i])
      && 0 <= lhs.pos < |lhs.rows| && -1 <= at < |matches|
      && (forall r :: r in matches ==> r in right.rows)
    }

    ghost function Ahead(): seq<Row>
      reads this, lhs
      requires Valid()
    {
      MapSeq(JoinRow(lhs.rows[lhs.pos], right.rows), matches[at + 1..]) +
      IndexJoin(lhs.rows[lhs.pos + 1..], field, right)
    }

    function Current(): Row
      reads this, lhs
      requires 0 <= lhs.pos < |lhs.rows| && 0 <= at < |matches| && matches[at] in right.rows
    {
      Merge(right.rows[matches[at]], lhs.rows[lhs.pos])
    }

    constructor (lhs: ListScan, field: string, right: Indexed)
      requires lhs.rows != [] && right.LookupsIn() && forall i :: 0 <= i < |lhs.rows| ==> field in lhs.rows[i]
      modifies lhs
      ensures this.lhs == lhs && this.field == field && this.right == right
      ensures Valid() && Ahead() == IndexJoin(lhs.rows, field, right)
    {
      this.lhs, this.field, this.right := lhs, field, right;
      matches, at := [], -1;
      new;
      lhs.BeforeFirst();
      var first := lhs.Next();
      assert lhs.rows[0..] == lhs.rows;
      ResetIndex();
    }

    /** Look the left row's key up in the index. */
    method ResetIndex()
      requires 0 <= lhs.pos < |lhs.rows| && right.LookupsIn() && forall i :: 0 <= i < |lhs.rows| ==> field in lhs.rows[i]
      modifies this
      ensures Valid() && Ahead() == IndexJoin(lhs.rows[lhs.pos..], field, right)
    {
      matches, at := right.Lookup(lhs.rows[lhs.pos][field]), -1;
      assert matches[0..] == matches;
      assert lhs.rows[lhs.pos..][1..] == lhs.rows[lhs.pos + 1..];
    }

    method Next(ghost rest: seq<Row>) returns (ok: bool)
      requires Valid() && Ahead() == rest
      modifies this, lhs
      ensures ok == (rest != [])
      ensures ok ==> Valid() && 0 <= at && Current() == rest[0] && Ahead() == rest[1..]
    {
      hide Merge, Indexed.Lookup;
      while at == |matches| - 1
        invariant Valid() && Ahead() == rest
        decreases |lhs.rows| - lhs.pos
      {
        assert matches[at + 1..] == [];
        var more := lhs.Next();
        if !more {
          return false;
        }
        ResetIndex();
      }
      MatchStep(JoinRow(lhs.rows[lhs.pos], right.rows), matches, at + 1, IndexJoin(lhs.rows[lhs.pos + 1..], field, right));
      at := at + 1;
      ok := true;
    }
  }

  lemma {:induction false} MatchStep(f: RID -> Row, matches: seq<RID>, i: nat, rest: seq<Row>)
    requires i < |matches|
    ensures MapSeq(f, matches[i..]) + rest != [] && (MapSeq(f, matches[i..]) + rest)[0] == f(matches[i])
    ensures (MapSeq(f, matches[i..]) + rest)[1..] == MapSeq(f, matches[i + 1..]) + rest
  {
    assert matches[i..][1..] == matches[i + 1..];
  }
}
