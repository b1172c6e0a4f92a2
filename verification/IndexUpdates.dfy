/** Update statements on a table with indexes: each index has one entry for each live record. */
module IndexUpdates {
  import opened QueryText
  import opened Tables
  import opened Statements

  /** What the Index interface promises: a bag of keys with record places. */
  type Entries = multiset<(Constant, RID)>

  /** The key of a record under a field, if it is live. */
  predicate HasKey(blocks: Blocks, name: string, v: Constant, r: RID) {
    Used(blocks, r) && name in At(blocks, r).row && At(blocks, r).row[name] == v
  }

  ghost predicate Agrees(blocks: Blocks, name: string, entries: Entries) {
    forall v: Constant, r: RID :: entries[(v, r)] == if HasKey(blocks, name, v, r) then 1 else 0
  }

  ghost predicate AllAgree(blocks: Blocks, indexes: map<string, Entries>) {
    forall name :: name in indexes ==> Agrees(blocks, name, indexes[name])
  }

  /** Every row has the indexed fields. */
  ghost predicate Keyed(blocks: Blocks, names: set<string>) {
    forall r: RID :: In(blocks, r) ==> names <= At(blocks, r).row.Keys
  }

  // ---- one record ----

  lemma {:induction false} DeleteAgrees(blocks: Blocks, name: string, entries: Entries, r: RID)
    requires Agrees(blocks, name, entries) && Used(blocks, r) && name in At(blocks, r).row
    ensures Agrees(Put(blocks, r, At(blocks, r).(used := false)), name, entries - multiset{(At(blocks, r).row[name], r)})
  {
    var after := Put(blocks, r, At(blocks, r).(used := false));
    var v := At(blocks, r).row[name];
    assert HasKey(blocks, name, v, r);
    forall w: Constant, q: RID
      ensures (entries - multiset{(v, r)})[(w, q)] == if HasKey(after, name, w, q) then 1 else 0
    {
      assert entries[(w, q)] == if HasKey(blocks, name, w, q) then 1 else 0;
    }
  }

  /** The old key is taken out and the new one put in; the indexes on other fields do not notice. */
  lemma {:induction false} ModifyAgrees(blocks: Blocks, name: string, entries: Entries, r: RID, target: string, v: Constant)
    requires Agrees(blocks, name, entries) && Used(blocks, r) && name in At(blocks, r).row
    ensures var slot := At(blocks, r);
            var after := Put(blocks, r, slot.(row := slot.row[target := v]));
            Agrees(after, name,
                   if name == target then entries - multiset{(slot.row[name], r)} + multiset{(v, r)} else entries)
  {
    var slot := At(blocks, r);
    var after := Put(blocks, r, slot.(row := slot.row[target := v]));
    var entries' := if name == target then entries - multiset{(slot.row[name], r)} + multiset{(v, r)} else entries;
    assert HasKey(blocks, name, slot.row[name], r);
    forall w: Constant, q: RID ensures entries'[(w, q)] == if HasKey(after, name, w, q) then 1 else 0 {
      assert entries[(w, q)] == if HasKey(blocks, name, w, q) then 1 else 0;
    }
  }

  // ---- the fields of a new record ----

  function SetFields(row: Row, fields: seq<string>, values: seq<Constant>): Row
    requires |fields| == |values|
  {
    if fields == [] then row
    else SetFields(row, fields[..|fields| - 1], values[..|values| - 1])[fields[|fields| - 1] := values[|values| - 1]]
  }

  /** A named field has the last value given for it, and every other field the value that was in the slot. */
  lemma {:induction false} LastValues(row: Row, fields: seq<string>, values: seq<Constant>, name: string)
    requires |fields| == |values|
    ensures var after := SetFields(row, fields, values);
            if name in fields then
              exists i :: 0 <= i < |fields| && fields[i] == name && name !in fields[i + 1..] &&
                          name in after && after[name] == values[i]
            else (name in after <==> name in row) && (name in row ==> after[name] == row[name])
  {
    if fields != [] {
      var n := |fields| - 1;
      LastValues(row, fields[..n], values[..n], name);
      if fields[n] == name {
        assert fields[n + 1..] == [];
      } else if name in fields[..n] {
        var i :| 0 <= i < n && fields[i] == name && name !in fields[..n][i + 1..] &&
                 SetFields(row, fields[..n], values[..n])[name] == values[i];
        assert fields[i + 1..] == fields[..n][i + 1..] + [fields[n]];
      }
    }
  }

  /** The entries that the loop over the fields puts into one index. */
  function NewEntries(name: string, fields: seq<string>, values: seq<Constant>, r: RID): Entries
    requires |fields| == |values|
  {
    if fields == [] then multiset{}
    else NewEntries(name, fields[..|fields| - 1], values[..|values| - 1], r) +
         if fields[|fields| - 1] == name then multiset{(values[|values| - 1], r)} else multiset{}
  }

  function Times(name: string, fields: seq<string>): nat {
    if fields == [] then 0 else Times(name, fields[..|fields| - 1]) + if fields[|fields| - 1] == name then 1 else 0
  }

  lemma {:induction false} NewEntriesCount(name: string, fields: seq<string>, values: seq<Constant>, r: RID)
    requires |fields| == |values|
    ensures |NewEntries(name, fields, values, r)| == Times(name, fields)
    ensures forall e :: e in NewEntries(name, fields, values, r) ==> e.1 == r
  {
    if fields != [] {
      NewEntriesCount(name, fields[..|fields| - 1], values[..|values| - 1], r);
    }
  }

  /** A field that is named once gets its value, and one entry with it. */
  lemma {:induction false} NamedOnce(row: Row, name: string, fields: seq<string>, values: seq<Constant>, r: RID)
    requires |fields| == |values| && Times(name, fields) == 1
    ensures name in SetFields(row, fields, values)
    ensures NewEntries(name, fields, values, r) == multiset{(SetFields(row, fields, values)[name], r)}
  {
    var fs, vs := fields[..|fields| - 1], values[..|values| - 1];
    if fields[|fields| - 1] == name {
      NewEntriesCount(name, fs, vs, r);
      assert NewEntries(name, fs, vs, r) == multiset{};
    } else {
      NamedOnce(row, name, fs, vs, r);
    }
  }

  lemma {:induction false} SetFieldsKeeps(row: Row, fields: seq<string>, values: seq<Constant>)
    requires |fields| == |values|
    ensures row.Keys <= SetFields(row, fields, values).Keys
  {
    if fields != [] {
      SetFieldsKeeps(row, fields[..|fields| - 1], values[..|values| - 1]);
    }
  }

  /** After an insertion an index agrees with the table just when its field was named exactly once. */
  lemma {:induction false} InsertAgreesIff(blocks: Blocks, name: string, entries: Entries, r: RID, fields: seq<string>,
                                           values: seq<Constant>)
    requires Agrees(blocks, name, entries) && In(blocks, r) && !At(blocks, r).used && |fields| == |values|
    requires name in At(blocks, r).row
    ensures var row := SetFields(At(blocks, r).row, fields, values);
            Agrees(Put(blocks, r, Slot(true, row)), name, entries + NewEntries(name, fields, values, r)) <==>
            Times(name, fields) == 1
  {
    var row, more := SetFields(At(blocks, r).row, fields, values), NewEntries(name, fields, values, r);
    var after := Put(blocks, r, Slot(true, row));
    SetFieldsKeeps(At(blocks, r).row, fields, values);
    NewEntriesCount(name, fields, values, r);
    forall v: Constant, q: RID
      ensures entries[(v, q)] == (if HasKey(blocks, name, v, q) then 1 else 0)
      ensures HasKey(after, name, v, q) <==> if q == r then v == row[name] else HasKey(blocks, name, v, q)
      ensures q == r ==> entries[(v, q)] == 0
    {
    }
    if Times(name, fields) == 1 {
      NamedOnce(At(blocks, r).row, name, fields, values, r);
    }
    if Agrees(after, name, entries + more) {
      forall e: (Constant, RID) ensures more[e] == multiset{(row[name], r)}[e] {
        assert (entries + more)[(e.0, e.1)] == if HasKey(after, name, e.0, e.1) then 1 else 0;
        assert e == (e.0, e.1);
      }
      assert more == multiset{(row[name], r)};
    }
  }

  /** An INSERT that names the indexed field "a" twice, with 1 and 2: the record has 2, and the index has both. */
  lemma {:induction false} NamedTwiceDisagrees()
    ensures var blocks, r := [[Slot(false, map["a" := Int(0)])]], RID(0, 0);
            var fields, values := ["a", "a"], [Int(1), Int(2)];
            Agrees(blocks, "a", multiset{}) &&
            !Agrees(Put(blocks, r, Slot(true, SetFields(At(blocks, r).row, fields, values))), "a",
                    NewEntries("a", fields, values, r))
  {
    var blocks, r := [[Slot(false, map["a" := Int(0)])]], RID(0, 0);
    var fields, values := ["a", "a"], [Int(1), Int(2)];
    assert Times("a", fields) == Times("a", ["a"]) + 1 == 2 by {
      assert fields[..1] == ["a"] && ["a"][..0] == [];
    }
    InsertAgreesIff(blocks, "a", multiset{}, r, fields, values);
    assert multiset{} + NewEntries("a", fields, values, r) == NewEntries("a", fields, values, r);
  }

  lemma {:induction false} GrowAgrees(blocks: Blocks, name: string, entries: Entries, block: seq<Slot>)
    requires Agrees(blocks, name, entries) && forall i :: 0 <= i < |block| ==> !block[i].used
    ensures Agrees(blocks + [block], name, entries)
  {
    forall v: Constant, r: RID ensures entries[(v, r)] == if HasKey(blocks + [block], name, v, r) then 1 else 0 {
      assert HasKey(blocks + [block], name, v, r) == HasKey(blocks, name, v, r);
    }
  }

  /** One field of a record is set, with its entry. */
  ghost predicate OneSet(blocks: Blocks, indexes: map<string, Entries>, r: RID, name: string, v: Constant, blocks': Blocks,
                         indexes': map<string, Entries>)
    requires In(blocks, r)
  {
    && blocks' == Put(blocks, r, At(blocks, r).(row := At(blocks, r).row[name := v]))
    && indexes'.Keys == indexes.Keys
    && forall n :: n in indexes ==> indexes'[n] == indexes[n] + if n == name then multiset{(v, r)} else multiset{}
  }

  /** The fields of a record are set, with their entries. */
  ghost predicate FieldsSet(blocks: Blocks, indexes: map<string, Entries>, r: RID, fields: seq<string>,
                            values: seq<Constant>, blocks': Blocks, indexes': map<string, Entries>)
    requires In(blocks, r) && |fields| == |values|
  {
    && blocks' == Put(blocks, r, At(blocks, r).(row := SetFields(At(blocks, r).row, fields, values)))
    && indexes'.Keys == indexes.Keys
    && forall n :: n in indexes ==> indexes'[n] == indexes[n] + NewEntries(n, fields, values, r)
  }

  lemma {:induction false} FieldsStart(blocks: Blocks, indexes: map<string, Entries>, r: RID)
    requires In(blocks, r)
    ensures FieldsSet(blocks, indexes, r, [], [], blocks, indexes)
  {
    PutPut(blocks, r, At(blocks, r), At(blocks, r));
  }

  lemma {:induction false} FieldsStep(blocks: Blocks, indexes: map<string, Entries>, r: RID, fields: seq<string>,
                                      values: seq<Constant>, i: nat, blocks1: Blocks, indexes1: map<string, Entries>,
                                      blocks2: Blocks, indexes2: map<string, Entries>)
    requires In(blocks, r) && i < |fields| == |values| && In(blocks1, r)
    requires FieldsSet(blocks, indexes, r, fields[..i], values[..i], blocks1, indexes1)
    requires OneSet(blocks1, indexes1, r, fields[i], values[i], blocks2, indexes2)
    ensures FieldsSet(blocks, indexes, r, fields[..i + 1], values[..i + 1], blocks2, indexes2)
  {
    assert fields[..i + 1][..i] == fields[..i] && values[..i + 1][..i] == values[..i];
    var slot := At(blocks, r);
    var now := SetFields(slot.row, fields[..i], values[..i]);
    PutPut(blocks, r, slot.(row := now), slot.(row := now[fields[i] := values[i]]));
  }

  // ---- the code ----

  class IndexedTable {
    const file: TableFile
    var indexes: map<string, Entries>

    /** The indexes hold exactly the keys and places of the live records. */
    ghost predicate Valid()
      reads this, file
    {
      && file.Valid() && Keyed(file.blocks, indexes.Keys) && indexes.Keys <= file.default.Keys
      && AllAgree(file.blocks, indexes)
    }

    /** An empty table with empty indexes on some of its fields. */
    constructor (perBlock: nat, default: Row, names: set<string>)
      requires perBlock > 0 && names <= default.Keys
      ensures Valid() && fresh(file) && indexes.Keys == names
    {
      file := new TableFile(perBlock, default);
      indexes := map name | name in names :: multiset{};
    }

    method PutEntry(name: string, v: Constant, r: RID)
      requires name in indexes
      modifies this
      ensures indexes == old(indexes)[name := old(indexes)[name] + multiset{(v, r)}]
    {
      indexes := indexes[name := indexes[name] + multiset{(v, r)}];
    }

    method TakeEntry(name: string, v: Constant, r: RID)
      requires name in indexes
      modifies this
      ensures indexes == old(indexes)[name := old(indexes)[name] - multiset{(v, r)}]
    {
      indexes := indexes[name := indexes[name] - multiset{(v, r)}];
    }

    /** The fields of the new record are set one by one, with an entry for each one that is indexed. */
    method SetNewFields(scan: TableScan, fields: seq<string>, values: seq<Constant>)
      requires scan.file == file && scan.Valid() && 0 <= scan.currentSlot && |fields| == |values|
      modifies this, file
      ensures scan.Valid()
      ensures FieldsSet(old(file.blocks), old(indexes), scan.Here(), fields, values, file.blocks, indexes)
    {
      FieldsStart(file.blocks, indexes, scan.Here());
      assert fields[..0] == [] && values[..0] == [];
      var i := 0;
      while i < |fields|
        invariant i <= |fields| && scan.Valid()
        invariant FieldsSet(old(file.blocks), old(indexes), scan.Here(), fields[..i], values[..i], file.blocks, indexes)
      {
        hide FieldsSet;
        ghost var blocks, indexes0 := file.blocks, indexes;
        SetOne(scan, fields[i], values[i]);
        FieldsStep(old(file.blocks), old(indexes), scan.Here(), fields, values, i, blocks, indexes0, file.blocks, indexes);
        i := i + 1;
      }
      assert fields[..i] == fields && values[..i] == values;
    }

    method SetOne(scan: TableScan, name: string, v: Constant)
      requires scan.file == file && scan.Valid() && 0 <= scan.currentSlot
      modifies this, file
      ensures scan.Valid()
      ensures OneSet(old(file.blocks), old(indexes), scan.Here(), name, v, file.blocks, indexes)
    {
      scan.SetVal(name, v);
      if name in indexes {
        PutEntry(name, v, RID(scan.block, scan.currentSlot));
      }
    }

    /** ExecuteInsert. An index stays right exactly when its field is named once. */
    method ExecuteInsert(fields: seq<string>, values: seq<Constant>) returns (count: nat, ghost r: RID)
      requires Valid() && |fields| == |values|
      modifies this, file
      ensures indexes.Keys == old(indexes).Keys && count == 1
      ensures forall name :: name in indexes ==>
                (Agrees(file.blocks, name, indexes[name]) <==> Times(name, fields) == 1)
      ensures Valid() <==> forall name :: name in indexes ==> Times(name, fields) == 1
      ensures !Used(old(file.blocks), r) && OneMore(old(file.blocks), file.blocks, r, fields, values, file.default)
    {
      ghost var before, entries := file.blocks, indexes;
      var scan := new TableScan(file);
      scan.Insert();
      r := scan.Here();
      ghost var base := if |file.blocks| == |before| then before else before + [FreshBlock(file.perBlock, file.default)];
      ghost var taken := file.blocks;
      SetNewFields(scan, fields, values);
      InsertedOk(before, entries, base, file.default, r, fields, values, taken, file.blocks, indexes);
      count := 1;
    }

    /** The record's entry leaves every index, then the record goes. */
    method DeleteHere(scan: TableScan)
      requires Valid() && scan.file == file && scan.Valid() && Used(file.blocks, scan.Here())
      modifies this, file
      ensures Valid() && scan.Valid() && indexes.Keys == old(indexes).Keys
      ensures file.blocks == Put(old(file.blocks), scan.Here(), At(old(file.blocks), scan.Here()).(used := false))
    {
      ghost var blocks := file.blocks;
      TakeEntries(scan);
      scan.Delete();
      DeletedOk(blocks, old(indexes), scan.Here(), file.blocks, indexes);
    }

    method TakeEntries(scan: TableScan)
      requires Valid() && scan.file == file && scan.Valid() && Used(file.blocks, scan.Here())
      modifies this
      ensures EntriesTaken(file.blocks, old(indexes), scan.Here(), indexes)
    {
      var row := scan.GetRow();
      var todo := indexes.Keys;
      while todo != {}
        invariant todo <= indexes.Keys <= row.Keys && indexes.Keys == old(indexes).Keys
        invariant Taken(old(indexes), indexes, row, scan.Here(), todo)
      {
        hide Taken;
        var name :| name in todo;
        TakenStep(old(indexes), indexes, row, scan.Here(), todo, name);
        todo := todo - {name};
        TakeEntry(name, row[name], RID(scan.block, scan.currentSlot));
      }
    }

    /** The record changes, then the index on its field. */
    method ModifyHere(scan: TableScan, target: string, v: Constant)
      requires Valid() && scan.file == file && scan.Valid() && Used(file.blocks, scan.Here())
      requires target in At(file.blocks, scan.Here()).row
      modifies this, file
      ensures Valid() && scan.Valid() && indexes.Keys == old(indexes).Keys
      ensures var slot := At(old(file.blocks), scan.Here());
              file.blocks == Put(old(file.blocks), scan.Here(), slot.(row := slot.row[target := v]))
    {
      ghost var blocks := file.blocks;
      var row := scan.GetRow();
      var oldValue := row[target];
      scan.SetVal(target, v);
      if target in indexes {
        TakeEntry(target, oldValue, RID(scan.block, scan.currentSlot));
        PutEntry(target, v, RID(scan.block, scan.currentSlot));
      }
      ModifiedOk(blocks, old(indexes), scan.Here(), target, v, file.blocks, indexes);
    }

    /** ExecuteModify. */
    method ExecuteModify(terms: seq<Term>, target: string, e: Expression) returns (count: nat)
      requires Valid() && Known(file.blocks, terms)
      requires forall r: RID :: In(file.blocks, r) ==>
                 Knows(At(file.blocks, r).row, e) && target in At(file.blocks, r).row
      modifies this, file
      ensures Valid() && indexes.Keys == old(indexes).Keys
      ensures Changed(old(file.blocks), file.blocks, Modifying(terms, target, e))
      ensures count == |Hits(old(file.blocks), terms)|
    {
      ghost var before, f := file.blocks, Modifying(terms, target, e);
      ModifyingKeeps(terms, target, e);
      hide KnowsTerms, SlotHit, Satisfied, Modifying, Put, HitsUpTo, AllAgree, Keyed;
      var scan := new TableScan(file);
      var select := new SelectScan(scan, terms);
      count := 0;
      ghost var p := scan.Here();
      var more := select.Next();
      while more
        invariant Valid() && indexes.Keys == old(indexes).Keys
        invariant Known(file.blocks, terms) && ChangedUpTo(before, file.blocks, p, f)
        invariant count == |HitsUpTo(before, terms, p)|
        invariant more ==> select.Valid() && p.Before(scan.Here()) && Hit(file.blocks, terms, scan.Here()) &&
                           NoHitBetween(file.blocks, terms, p, scan.Here())
        invariant !more ==> forall r: RID :: p.Before(r) ==> !Hit(file.blocks, terms, r)
        decreases if more then |before| - scan.block else 0, if more then file.perBlock - scan.currentSlot else 0
      {
        HitsAhead(before, file.blocks, terms, p, f);
        ModifyOne(scan, terms, target, e, before, p);
        count := count + 1;
        p := scan.Here();
        KnownAfter(before, file.blocks, terms, p, f);
        more := select.Next();
      }
      HitsAhead(before, file.blocks, terms, p, f);
      ChangeDone(before, file.blocks, terms, p, f);
    }

    method ModifyOne(scan: TableScan, terms: seq<Term>, target: string, e: Expression, ghost before: Blocks, ghost p: RID)
      requires Valid() && scan.file == file && scan.Valid() && Known(before, terms)
      requires Hit(before, terms, scan.Here()) && p.Before(scan.Here()) && NoHitBetween(before, terms, p, scan.Here())
      requires forall r: RID :: In(before, r) ==> Knows(At(before, r).row, e) && target in At(before, r).row
      requires ChangedUpTo(before, file.blocks, p, Modifying(terms, target, e))
      modifies this, file
      ensures Valid() && scan.Valid() && indexes.Keys == old(indexes).Keys
      ensures ChangedUpTo(before, file.blocks, scan.Here(), Modifying(terms, target, e))
      ensures |HitsUpTo(before, terms, scan.Here())| == |HitsUpTo(before, terms, p)| + 1
    {
      ghost var now, f := file.blocks, Modifying(terms, target, e);
      hide AllAgree, Keyed, Shaped;
      var row := scan.GetRow();
      assert At(now, scan.Here()) == At(before, scan.Here());
      ModifyHere(scan, target, Eval(e, row));
      ChangeStep(before, now, file.blocks, terms, p, scan.Here(), f);
    }

    /** ExecuteDelete. */
    method ExecuteDelete(terms: seq<Term>) returns (count: nat)
      requires Valid() && Known(file.blocks, terms)
      modifies this, file
      ensures Valid() && indexes.Keys == old(indexes).Keys
      ensures Changed(old(file.blocks), file.blocks, Deleting(terms)) && count == |Hits(old(file.blocks), terms)|
    {
      ghost var before, f := file.blocks, Deleting(terms);
      var scan := new TableScan(file);
      var select := new SelectScan(scan, terms);
      count := 0;
      ghost var p := scan.Here();
      var more := select.Next();
      while more
        invariant Valid() && indexes.Keys == old(indexes).Keys
        invariant Known(file.blocks, terms) && ChangedUpTo(before, file.blocks, p, f)
        invariant count == |HitsUpTo(before, terms, p)|
        invariant more ==> select.Valid() && p.Before(scan.Here()) && Hit(file.blocks, terms, scan.Here()) &&
                           NoHitBetween(file.blocks, terms, p, scan.Here())
        invariant !more ==> forall r: RID :: p.Before(r) ==> !Hit(file.blocks, terms, r)
        decreases if more then |before| - scan.block else 0, if more then file.perBlock - scan.currentSlot else 0
      {
        ghost var now, q := file.blocks, scan.Here();
        HitsAhead(before, now, terms, p, f);
        DeleteHere(scan);
        count := count + 1;
        ChangeStep(before, now, file.blocks, terms, p, q, f);
        p := q;
        KnownAfter(before, file.blocks, terms, p, f);
        more := select.Next();
      }
      HitsAhead(before, file.blocks, terms, p, f);
      ChangeDone(before, file.blocks, terms, p, f);
    }
  }

  /** Every index has lost the entry of one record. */
  ghost predicate EntriesTaken(blocks: Blocks, indexes: map<string, Entries>, r: RID, indexes': map<string, Entries>)
    requires In(blocks, r)
  {
    && indexes'.Keys == indexes.Keys
    && forall name :: name in indexes ==>
         name in At(blocks, r).row && indexes'[name] == indexes[name] - multiset{(At(blocks, r).row[name], r)}
  }

  /** The entries are taken from all indexes but those still to do. */
  ghost predicate Taken(indexes: map<string, Entries>, indexes': map<string, Entries>, row: Row, r: RID, todo: set<string>)
    requires indexes.Keys <= row.Keys
  {
    && indexes'.Keys == indexes.Keys
    && forall name :: name in indexes ==>
         indexes'[name] == if name in todo then indexes[name] else indexes[name] - multiset{(row[name], r)}
  }

  lemma {:induction false} TakenStep(indexes: map<string, Entries>, indexes': map<string, Entries>, row: Row, r: RID,
                                     todo: set<string>, name: string)
    requires indexes.Keys <= row.Keys && Taken(indexes, indexes', row, r, todo) && name in todo && name in indexes
    ensures name in indexes'
    ensures Taken(indexes, indexes'[name := indexes'[name] - multiset{(row[name], r)}], row, r, todo - {name})
  {
  }

  lemma {:induction false} DeletedOk(blocks: Blocks, indexes: map<string, Entries>, r: RID, blocks': Blocks,
                                     indexes': map<string, Entries>)
    requires AllAgree(blocks, indexes) && Keyed(blocks, indexes.Keys) && Used(blocks, r)
    requires EntriesTaken(blocks, indexes, r, indexes') && blocks' == Put(blocks, r, At(blocks, r).(used := false))
    ensures AllAgree(blocks', indexes') && Keyed(blocks', indexes'.Keys)
  {
    forall name | name in indexes' ensures Agrees(blocks', name, indexes'[name]) {
      DeleteAgrees(blocks, name, indexes[name], r);
    }
    KeyedPut(blocks, indexes.Keys, r, At(blocks, r).(used := false));
  }

  lemma {:induction false} ModifiedOk(blocks: Blocks, indexes: map<string, Entries>, r: RID, target: string, v: Constant,
                                      blocks': Blocks, indexes': map<string, Entries>)
    requires AllAgree(blocks, indexes) && Keyed(blocks, indexes.Keys) && Used(blocks, r) && target in At(blocks, r).row
    requires blocks' == Put(blocks, r, At(blocks, r).(row := At(blocks, r).row[target := v]))
    requires indexes'.Keys == indexes.Keys
    requires forall name :: name in indexes ==>
               indexes'[name] == if name == target
                                 then indexes[name] - multiset{(At(blocks, r).row[target], r)} + multiset{(v, r)}
                                 else indexes[name]
    ensures AllAgree(blocks', indexes') && Keyed(blocks', indexes'.Keys)
  {
    forall name | name in indexes' ensures Agrees(blocks', name, indexes'[name]) {
      ModifyAgrees(blocks, name, indexes[name], r, target, v);
    }
    KeyedPut(blocks, indexes.Keys, r, At(blocks, r).(row := At(blocks, r).row[target := v]));
  }

  lemma {:induction false} KeyedPut(blocks: Blocks, names: set<string>, r: RID, s: Slot)
    requires Keyed(blocks, names) && In(blocks, r) && names <= s.row.Keys
    ensures Keyed(Put(blocks, r, s), names)
  {
    forall q: RID | In(Put(blocks, r, s), q) ensures names <= At(Put(blocks, r, s), q).row.Keys {
      assert In(blocks, q) && names <= At(blocks, q).row.Keys;
    }
  }

  /** The table has one more record, in a slot that was empty, perhaps in a new block. */
  ghost predicate OneMore(before: Blocks, after: Blocks, r: RID, fields: seq<string>, values: seq<Constant>, default: Row)
    requires |fields| == |values|
  {
    exists base: Blocks ::
      && (base == before || (|base| == |before| + 1 && base == before + [FreshBlock(|base[|before|]|, default)]))
      && In(base, r) && !At(base, r).used
      && after == Put(base, r, Slot(true, SetFields(At(base, r).row, fields, values)))
  }

  lemma {:induction false} InsertedOk(before: Blocks, indexes: map<string, Entries>, base: Blocks, default: Row, r: RID,
                                      fields: seq<string>, values: seq<Constant>, taken: Blocks, after: Blocks,
                                      indexes': map<string, Entries>)
    requires AllAgree(before, indexes) && Keyed(before, indexes.Keys) && indexes.Keys <= default.Keys
    requires base == before || (|base| == |before| + 1 && base == before + [FreshBlock(|base[|before|]|, default)])
    requires In(base, r) && !At(base, r).used && taken == Put(base, r, At(base, r).(used := true)) && In(taken, r)
    requires |fields| == |values| && FieldsSet(taken, indexes, r, fields, values, after, indexes')
    ensures Keyed(after, indexes'.Keys) && indexes'.Keys == indexes.Keys
    ensures forall name :: name in indexes ==> (Agrees(after, name, indexes'[name]) <==> Times(name, fields) == 1)
    ensures !Used(before, r) && OneMore(before, after, r, fields, values, default)
  {
    var row := SetFields(At(base, r).row, fields, values);
    PutPut(base, r, At(base, r).(used := true), Slot(true, row));
    assert after == Put(base, r, Slot(true, row));
    SetFieldsKeeps(At(base, r).row, fields, values);
    KeyedBase(before, indexes.Keys, base, default);
    forall q: RID | In(after, q) ensures indexes.Keys <= At(after, q).row.Keys {
      assert q != r ==> In(base, q) && At(after, q) == At(base, q);
    }
    forall name | name in indexes ensures Agrees(after, name, indexes'[name]) <==> Times(name, fields) == 1 {
      assert Agrees(before, name, indexes[name]);
      if base != before {
        GrowAgrees(before, name, indexes[name], base[|before|]);
      }
      InsertAgreesIff(base, name, indexes[name], r, fields, values);
    }
  }

  lemma {:induction false} KeyedBase(before: Blocks, names: set<string>, base: Blocks, default: Row)
    requires Keyed(before, names) && names <= default.Keys
    requires base == before || (|base| == |before| + 1 && base == before + [FreshBlock(|base[|before|]|, default)])
    ensures Keyed(base, names)
  {
    forall q: RID | In(base, q) ensures names <= At(base, q).row.Keys {
      if q.block < |before| {
        assert In(before, q) && At(base, q) == At(before, q);
      } else {
        assert base[q.block] == FreshBlock(|base[|before|]|, default);
      }
    }
  }
}
