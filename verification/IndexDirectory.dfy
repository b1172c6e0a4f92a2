/** An index as its two files, the leaves and the directory, against the leaves under a sorted list of separators. */
module IndexDirectory {
  import opened Storage
  import opened LeafTree
  import LeafIndex
  import opened DirectoryPages
  import opened DirectoryTree
  import HandedUp

  datatype Files = Files(leaves: seq<Leaf>, pages: seq<DirPage>)

  /** The directory pages hold the entries, in one page or in three. */
  ghost predicate Held(pages: seq<DirPage>, dir: seq<Entry>, full: nat) {
    exists m :: Holding(pages, RecsOf(dir), m, full)
  }

  ghost predicate Agrees(x: Files, t: LeafIndex.Tree, full: nat, dirFull: nat) {
    x.leaves == t.file && LeafIndex.TreeOk(t, full) && t.dir[0].block == 0 && Held(x.pages, t.dir, dirFull)
  }

  // ---- searches ----

  lemma {:induction false} SameLeaf(dir: seq<Entry>, key: int)
    requires LeafIndex.DirOk(dir) && dir[0].key <= key
    ensures RecsOf(dir) != [] && RecsOf(dir)[0].key <= key && Ascending(RecsOf(dir))
    ensures RightChild(RecsOf(dir), key) == dir[LeafIndex.Route(dir, key)].block
  {
  }

  /** A search of the directory pages ends at the leaf of the list exactly unless its key is astray. */
  lemma {:induction false} FindsLeafIff(pages: seq<DirPage>, dir: seq<Entry>, dirFull: nat, key: int)
    requires Held(pages, dir, dirFull) && LeafIndex.DirOk(dir) && dir[0].key <= key
    ensures Finds(pages, key, dir[LeafIndex.Route(dir, key)].block) <==> !Astray(pages, key)
  {
    var m :| Holding(pages, RecsOf(dir), m, dirFull);
    SameLeaf(dir, key);
    SearchIff(pages, RecsOf(dir), m, dirFull, key);
  }

  /** What the iterator finds under a key, if the search for the leaf stays in the files. */
  ghost function Lookup(x: Files, key: int): Option<seq<Rec>> {
    if Path(x.pages, 0, key) && 0 <= SearchResult(x.pages, 0, key) < |x.leaves| then
      Some(Found(x.leaves, SearchResult(x.pages, 0, key), key))
    else None
  }

  lemma {:induction false} SameLookup(x: Files, t: LeafIndex.Tree, full: nat, dirFull: nat, key: int)
    requires Agrees(x, t, full, dirFull) && t.dir[0].key <= key && !Astray(x.pages, key)
    ensures LeafIndex.BlocksIn(t) && Lookup(x, key) == Some(LeafIndex.Lookup(t, key))
  {
    FindsLeafIff(x.pages, t.dir, dirFull, key);
  }

  /** Even a wrong search ends at a leaf of the directory or at leaf 0. */
  lemma {:induction false} ResultAmong(pages: seq<DirPage>, recs: seq<Rec>, m: nat, full: nat, key: int)
    requires Holding(pages, recs, m, full) && Path(pages, 0, key)
    ensures var b := SearchResult(pages, 0, key);
            b == 0 || exists j :: 0 <= j < |recs| && recs[j].block == b
  {
    if m == 0 {
      assert recs[0] == pages[0].slots[0];
      OneSearch(pages, recs, full, key);
      ChildAmong(recs, 0, |recs|, key);
    } else {
      DownOne(pages, key);
      var c := FoundChild(pages[0], key);
      var lo, hi := if c == 2 then 0 else m, if c == 2 then m else |recs|;
      assert pages[c].Recs() == recs[lo..hi] && recs[lo..hi][0] == pages[c].slots[0];
      assert Ascending(recs[lo..hi]);
      PageFinds(pages[c], recs[lo..hi], full, key);
      ChildAmong(recs, lo, hi, key);
    }
  }

  lemma {:induction false} AmongLeaves(pages: seq<DirPage>, dir: seq<Entry>, full: nat, key: int)
    requires Held(pages, dir, full) && dir != [] && dir[0].block == 0 && Path(pages, 0, key)
    ensures exists j :: 0 <= j < |dir| && dir[j].block == SearchResult(pages, 0, key)
  {
    var m :| Holding(pages, RecsOf(dir), m, full);
    ResultAmong(pages, RecsOf(dir), m, full, key);
    var b := SearchResult(pages, 0, key);
    if b == 0 {
      assert dir[0].block == b;
    } else {
      var j :| 0 <= j < |dir| && RecsOf(dir)[j].block == b;
      assert dir[j].block == b;
    }
  }

  lemma {:induction false} ChildAmong(recs: seq<Rec>, lo: nat, hi: nat, key: int)
    requires lo < hi <= |recs| && recs[lo].key <= key
    ensures exists j :: 0 <= j < |recs| && recs[j].block == RightChild(recs[lo..hi], key)
  {
    var i := RouteOf(recs[lo..hi], key);
    assert recs[lo + i] == recs[lo..hi][i];
  }

  /** A wrong leaf has nothing under the key. */
  lemma {:induction false} WrongLeaf(t: LeafIndex.Tree, full: nat, key: int, j: nat)
    requires LeafIndex.TreeOk(t, full) && t.dir[0].key <= key && j < |t.dir| && j != LeafIndex.Route(t.dir, key)
    ensures t.dir[j].block < |t.file| && Found(t.file, t.dir[j].block, key) == []
  {
    var found := Found(t.file, t.dir[j].block, key);
    if found != [] {
      var r := found[0];
      assert r in multiset(found);
      FoundCounts(t.file, t.dir[j].block, t.dir[j].key, LeafIndex.Next(t.dir, j), full, key, r);
      assert r in multiset(LeafRecs(t.file, t.dir[j].block));
      LeafIndex.OtherLeaf(t, full, LeafIndex.Route(t.dir, key), r, j);
    }
  }

  /** An astray search finds nothing under its key, whatever there is. */
  lemma {:induction false} AstrayFinds(x: Files, t: LeafIndex.Tree, full: nat, dirFull: nat, key: int)
    requires Agrees(x, t, full, dirFull) && t.dir[0].key <= key && Astray(x.pages, key)
    ensures Lookup(x, key) == None || Lookup(x, key) == Some([])
  {
    if Lookup(x, key).Some? {
      var b := SearchResult(x.pages, 0, key);
      FindsLeafIff(x.pages, t.dir, dirFull, key);
      AmongLeaves(x.pages, t.dir, dirFull, key);
      var j :| 0 <= j < |t.dir| && t.dir[j].block == b;
      hide LeafIndex.TreeOk, Found, Held, Astray, SearchResult, Path;
      WrongLeaf(t, full, key, j);
    }
  }

  // ---- insertions ----

  /** The leaf's part of an insertion, if the search for the leaf stays in the files. */
  ghost function InLeaf(x: Files, r: Rec, full: nat): Option<(seq<Leaf>, Option<Entry>)> {
    if Path(x.pages, 0, r.key) && 0 <= SearchResult(x.pages, 0, r.key) < |x.leaves| then
      var b := SearchResult(x.pages, 0, r.key);
      if full >= 2 && Sorted(x.leaves[b].recs) then Some(LeafInsert(x.leaves, b, r, full)) else None
    else None
  }

  /** BTreeIndex::Insert. */
  ghost function Insert(x: Files, r: Rec, full: nat, dirFull: nat): Option<Files> {
    match InLeaf(x, r, full)
    case None => None
    case Some(res) =>
      match res.1
      case None => Some(Files(res.0, x.pages))
      case Some(e) =>
        var rec := Rec(e.key, e.block, 0);
        if Takes(x.pages, rec, dirFull) then Some(Files(res.0, IndexEntry(x.pages, rec, dirFull))) else None
  }

  /** The leaf does not split, or its entry has room. */
  ghost predicate Fits(x: Files, r: Rec, full: nat, dirFull: nat) {
    var res := InLeaf(x, r, full);
    res.Some? && res.value.1.Some? ==> HasRoom(x.pages, res.value.1.value.key, dirFull)
  }

  lemma {:induction false} SameRecs(dir: seq<Entry>, i: nat, e: Entry)
    requires i < |dir|
    ensures RecsOf(LeafIndex.WithEntry(dir, i, Some(e))) == InsertAt(RecsOf(dir), i + 1, Rec(e.key, e.block, 0))
  {
    var dir', r := LeafIndex.WithEntry(dir, i, Some(e)), Rec(e.key, e.block, 0);
    InsertedAt(RecsOf(dir), i + 1, r);
    assert forall j :: 0 <= j < |dir'| ==> dir'[j] == if j <= i then dir[j] else if j == i + 1 then e else dir[j - 1];
    hide InsertAt, LeafIndex.WithEntry;
    assert |RecsOf(dir')| == |InsertAt(RecsOf(dir), i + 1, r)|;
  }

  /** The list takes a leaf's new entry where a page takes it. */
  lemma {:induction false} SameEntry(dir: seq<Entry>, i: nat, e: Entry)
    requires LeafIndex.DirOk(dir) && i < |dir| && dir[i].key < e.key && Below(e.key, LeafIndex.Next(dir, i))
    ensures RecsOf(LeafIndex.WithEntry(dir, i, Some(e))) == Added(RecsOf(dir), Rec(e.key, e.block, 0))
  {
    assert forall j :: 0 <= j <= i ==> dir[j].key <= dir[i].key;
    SlotIs(RecsOf(dir), e.key, i);
    hide InsertAt, LeafIndex.WithEntry, SlotBefore;
    SameRecs(dir, i, e);
  }

  /** A leaf's new entry is none that the directory has. */
  lemma {:induction false} EntryIsNew(t: LeafIndex.Tree, full: nat, i: nat, e: Entry)
    requires LeafIndex.TreeOk(t, full) && i < |t.dir| && t.dir[i].key < e.key && Below(e.key, LeafIndex.Next(t.dir, i))
    requires e.block == |t.file|
    ensures NewEntry(RecsOf(t.dir), Rec(e.key, e.block, 0))
  {
    forall j | 0 <= j < |t.dir| ensures t.dir[j].key != e.key && t.dir[j].block < |t.file| {
      assert j < i ==> t.dir[j].key < t.dir[i].key;
      assert i + 1 < j ==> t.dir[i + 1].key < t.dir[j].key;
    }
    assert t.dir[0].key <= t.dir[i].key;
  }

  /** One insertion in the files is one insertion in the leaves under the list. */
  lemma {:induction false} InsertAgrees(x: Files, t: LeafIndex.Tree, r: Rec, full: nat, dirFull: nat)
    requires full >= 2 && Agrees(x, t, full, dirFull) && t.dir[0].key <= r.key
    requires !Astray(x.pages, r.key) && Fits(x, r, full, dirFull)
    ensures LeafIndex.BlocksIn(t) && Sorted(t.file[t.dir[LeafIndex.Route(t.dir, r.key)].block].recs)
    ensures Insert(x, r, full, dirFull).Some?
    ensures Agrees(Insert(x, r, full, dirFull).value, LeafIndex.Insert(t, r, full), full, dirFull)
  {
    var i := LeafIndex.Route(t.dir, r.key);
    var b := t.dir[i].block;
    FindsLeafIff(x.pages, t.dir, dirFull, r.key);
    LeafIndex.InsertKeeps(t, r, full);
    LeafIndex.InsertEntry(t, r, full);
    hide LeafIndex.TreeOk, Finds, LeafInsert, Astray, Sorted, Takes;
    match LeafInsert(t.file, b, r, full).1
    case None =>
    case Some(e) => EntryAgrees(x.pages, t, full, dirFull, i, e);
  }

  lemma {:induction false} EntryAgrees(pages: seq<DirPage>, t: LeafIndex.Tree, full: nat, dirFull: nat, i: nat, e: Entry)
    requires LeafIndex.TreeOk(t, full) && i < |t.dir| && t.dir[i].key < e.key && Below(e.key, LeafIndex.Next(t.dir, i))
    requires e.block == |t.file| && Held(pages, t.dir, dirFull) && HasRoom(pages, e.key, dirFull)
    ensures var rec := Rec(e.key, e.block, 0);
            Takes(pages, rec, dirFull) &&
            Held(IndexEntry(pages, rec, dirFull), LeafIndex.WithEntry(t.dir, i, Some(e)), dirFull)
  {
    var m :| Holding(pages, RecsOf(t.dir), m, dirFull);
    SameEntry(t.dir, i, e);
    EntryIsNew(t, full, i, e);
    EntryHeld(pages, RecsOf(t.dir), m, Rec(e.key, e.block, 0), dirFull);
  }

  /** What a search needs after an insertion, whatever pages it fills. */
  ghost predicate ReachedAfter(x: Files, t: LeafIndex.Tree, m: nat, r: Rec, full: nat, dirFull: nat, key: int)
    requires Holding(x.pages, RecsOf(t.dir), m, dirFull)
  {
    var res := InLeaf(x, r, full);
    res.Some? &&
    match res.value.1
    case None => !Astray(x.pages, key)
    case Some(e) =>
      var rec := Rec(e.key, e.block, 0);
      Takes(x.pages, rec, dirFull) && HandedUp.Reached(x.pages, RecsOf(t.dir), m, rec, dirFull, key)
  }

  /** After any insertion of a key that is not astray, entries that are handed up past the root included: the leaves are
      those of the insertion under the list, and exactly these searches end at the leaf that the list names. */
  lemma {:induction false} InsertFindsIff(x: Files, t: LeafIndex.Tree, m: nat, r: Rec, full: nat, dirFull: nat, key: int)
    requires full >= 2 && Agrees(x, t, full, dirFull) && Holding(x.pages, RecsOf(t.dir), m, dirFull)
    requires t.dir[0].key <= r.key && !Astray(x.pages, r.key) && t.dir[0].key <= key
    ensures LeafIndex.BlocksIn(t) && Sorted(t.file[t.dir[LeafIndex.Route(t.dir, r.key)].block].recs)
    ensures Insert(x, r, full, dirFull).Some?
    ensures var x', t' := Insert(x, r, full, dirFull).value, LeafIndex.Insert(t, r, full);
            x'.leaves == t'.file && LeafIndex.TreeOk(t', full) && t'.dir[0].key <= key &&
            (Finds(x'.pages, key, t'.dir[LeafIndex.Route(t'.dir, key)].block) <==>
             ReachedAfter(x, t, m, r, full, dirFull, key))
  {
    var i := LeafIndex.Route(t.dir, r.key);
    FindsLeafIff(x.pages, t.dir, dirFull, r.key);
    LeafIndex.InsertKeeps(t, r, full);
    LeafIndex.InsertEntry(t, r, full);
    assert InLeaf(x, r, full) == Some(LeafInsert(t.file, t.dir[i].block, r, full));
    hide LeafIndex.TreeOk, Finds, LeafInsert, Astray, Sorted, Takes, HandedUp.Reached, Holding;
    match LeafInsert(t.file, t.dir[i].block, r, full).1
    case None => FindsLeafIff(x.pages, t.dir, dirFull, key);
    case Some(e) => EntryFindsIff(x.pages, t, m, full, dirFull, i, e, key);
  }

  lemma {:induction false} EntryFindsIff(pages: seq<DirPage>, t: LeafIndex.Tree, m: nat, full: nat, dirFull: nat, i: nat,
                                         e: Entry, key: int)
    requires LeafIndex.TreeOk(t, full) && i < |t.dir| && t.dir[i].key < e.key && Below(e.key, LeafIndex.Next(t.dir, i))
    requires e.block == |t.file| && Holding(pages, RecsOf(t.dir), m, dirFull) && t.dir[0].block == 0
    requires t.dir[0].key <= key
    ensures var rec, dir' := Rec(e.key, e.block, 0), LeafIndex.WithEntry(t.dir, i, Some(e));
            dir' != [] && dir'[0].key <= key && Takes(pages, rec, dirFull) &&
            (Finds(IndexEntry(pages, rec, dirFull), key, dir'[LeafIndex.Route(dir', key)].block) <==>
             HandedUp.Reached(pages, RecsOf(t.dir), m, rec, dirFull, key))
  {
    var rec, dir' := Rec(e.key, e.block, 0), LeafIndex.WithEntry(t.dir, i, Some(e));
    LeafIndex.WithEntryAt(t.dir, i, e);
    SameEntry(t.dir, i, e);
    EntryIsNew(t, full, i, e);
    SameLeaf(dir', key);
    hide LeafIndex.TreeOk, LeafIndex.WithEntry, Added, Finds, Takes, HandedUp.Reached, NewEntry, IndexEntry;
    HandedUp.InsertSearchIff(pages, RecsOf(t.dir), m, rec, dirFull, key);
    MovedRoutes(RecsOf(t.dir), rec, key);
  }

  /** A search that ends at that leaf finds exactly the records with its key. */
  lemma {:induction false} FoundExactly(x: Files, t: LeafIndex.Tree, full: nat, key: int, r: Rec)
    requires x.leaves == t.file && LeafIndex.TreeOk(t, full) && t.dir[0].key <= key
    requires Finds(x.pages, key, t.dir[LeafIndex.Route(t.dir, key)].block)
    ensures Lookup(x, key).Some? && LeafIndex.BlocksIn(t)
    ensures multiset(Lookup(x, key).value)[r] == if r.key == key then LeafIndex.Contents(t.file, t.dir)[r] else 0
  {
    LeafIndex.LookupExact(t, full, key, r);
  }

  // ---- runs of insertions ----

  /** One empty leaf, and one directory page with the least key. */
  function Empty(least: int, room: nat): Files
    requires room > 0
  {
    Files([Leaf(-1, [])], [FreshPage(0, [Rec(least, 0, 0)], room)])
  }

  ghost function InsertAll(least: int, rs: seq<Rec>, full: nat, dirFull: nat, room: nat): Option<Files>
    requires room > 0
  {
    if rs == [] then Some(Empty(least, room))
    else
      var n := |rs| - 1;
      match InsertAll(least, rs[..n], full, dirFull, room)
      case None => None
      case Some(x) => Insert(x, rs[n], full, dirFull)
  }

  /** No key was astray when its record was inserted, and every leaf's entry had room. */
  ghost predicate Steady(least: int, rs: seq<Rec>, full: nat, dirFull: nat, room: nat)
    requires room > 0
  {
    rs == [] ||
    var n := |rs| - 1;
    Steady(least, rs[..n], full, dirFull, room) &&
    match InsertAll(least, rs[..n], full, dirFull, room)
    case None => false
    case Some(x) => !Astray(x.pages, rs[n].key) && Fits(x, rs[n], full, dirFull)
  }

  lemma {:induction false} EmptyAgrees(least: int, full: nat, dirFull: nat, room: nat)
    requires full >= 2 && 3 <= dirFull <= room
    ensures Agrees(Empty(least, room), LeafIndex.EmptyTree(least), full, dirFull)
  {
    LeafIndex.EmptyOk(least, full);
    assert RecsOf(LeafIndex.EmptyTree(least).dir) == [Rec(least, 0, 0)];
    FreshHas([Rec(least, 0, 0)], room, dirFull);
    assert Holding(Empty(least, room).pages, [Rec(least, 0, 0)], 0, dirFull);
  }

  /** A steady run of insertions in the files is the same run in the leaves under the list. */
  lemma {:induction false} RunAgrees(least: int, rs: seq<Rec>, full: nat, dirFull: nat, room: nat)
    requires full >= 2 && 3 <= dirFull <= room && LeafIndex.FromLeast(rs, least)
    requires Steady(least, rs, full, dirFull, room)
    ensures InsertAll(least, rs, full, dirFull, room).Some?
    ensures Agrees(InsertAll(least, rs, full, dirFull, room).value, LeafIndex.InsertAll(least, rs, full), full, dirFull)
  {
    if rs == [] {
      EmptyAgrees(least, full, dirFull, room);
    } else {
      var n := |rs| - 1;
      RunAgrees(least, rs[..n], full, dirFull, room);
      InsertAgrees(InsertAll(least, rs[..n], full, dirFull, room).value, LeafIndex.InsertAll(least, rs[..n], full), rs[n],
                   full, dirFull);
    }
  }

  ghost predicate Exact(x: Files, rs: seq<Rec>, key: int) {
    Lookup(x, key).Some? && multiset(Lookup(x, key).value) == multiset(WithKey(rs, key))
  }

  /** After any steady run, a lookup yields exactly the records inserted under its key, unless its key is astray: then
      it yields none of them. */
  lemma {:induction false} RunExactIff(least: int, rs: seq<Rec>, full: nat, dirFull: nat, room: nat, key: int)
    requires full >= 2 && 3 <= dirFull <= room && LeafIndex.FromLeast(rs, least) && least <= key
    requires Steady(least, rs, full, dirFull, room)
    ensures InsertAll(least, rs, full, dirFull, room).Some?
    ensures var x := InsertAll(least, rs, full, dirFull, room).value;
            (!Astray(x.pages, key) ==> Exact(x, rs, key)) &&
            (Astray(x.pages, key) && WithKey(rs, key) != [] ==> !Exact(x, rs, key))
  {
    RunAgrees(least, rs, full, dirFull, room);
    var x, t := InsertAll(least, rs, full, dirFull, room).value, LeafIndex.InsertAll(least, rs, full);
    if Astray(x.pages, key) {
      AstrayFinds(x, t, full, dirFull, key);
      assert WithKey(rs, key) != [] ==> WithKey(rs, key)[0] in multiset(WithKey(rs, key));
    } else {
      SameLookup(x, t, full, dirFull, key);
      LeafIndex.RunExact(least, rs, full, key);
    }
  }

  // ---- runs that lose a record ----

  lemma {:induction false} Snoc(least: int, rs: seq<Rec>, r: Rec, full: nat, dirFull: nat, room: nat)
    requires room > 0
    ensures InsertAll(least, rs + [r], full, dirFull, room) ==
            match InsertAll(least, rs, full, dirFull, room)
            case None => None
            case Some(x) => Insert(x, r, full, dirFull)
    ensures Steady(least, rs + [r], full, dirFull, room) <==>
            Steady(least, rs, full, dirFull, room) &&
            match InsertAll(least, rs, full, dirFull, room)
            case None => false
            case Some(x) => !Astray(x.pages, r.key) && Fits(x, r, full, dirFull)
  {
    assert (rs + [r])[..|rs|] == rs;
  }

  /** A steady run whose directory is one page still. */
  ghost predicate OnePage(least: int, rs: seq<Rec>, full: nat, dirFull: nat, room: nat)
    requires full >= 2 && room > 0
  {
    && LeafIndex.FromLeast(rs, least) && Steady(least, rs, full, dirFull, room)
    && match InsertAll(least, rs, full, dirFull, room)
       case None => false
       case Some(x) => Holding(x.pages, RecsOf(LeafIndex.InsertAll(least, rs, full).dir), 0, dirFull)
  }

  /** The pages after one more insertion: one page still, or a root that has grown. */
  ghost predicate OneOrGrown(pages: seq<DirPage>, recs: seq<Rec>, full: nat) {
    if |recs| < full then Holding(pages, recs, 0, full)
    else exists p: DirPage ::
      p.level == 0 && 3 <= |recs| == p.count <= |p.slots| && p.Recs() == recs && pages == Grown(p)
  }

  lemma {:induction false} OnePageInsert(x: Files, t: LeafIndex.Tree, r: Rec, full: nat, dirFull: nat)
    requires full >= 2 && Agrees(x, t, full, dirFull) && t.dir[0].key <= r.key
    requires Holding(x.pages, RecsOf(t.dir), 0, dirFull) && !Zeroed(RecsOf(t.dir), r.key)
    ensures !Astray(x.pages, r.key) && Fits(x, r, full, dirFull) && Insert(x, r, full, dirFull).Some?
    ensures LeafIndex.BlocksIn(t) && Sorted(t.file[t.dir[LeafIndex.Route(t.dir, r.key)].block].recs)
    ensures OneOrGrown(Insert(x, r, full, dirFull).value.pages, RecsOf(LeafIndex.Insert(t, r, full).dir), dirFull)
  {
    var i := LeafIndex.Route(t.dir, r.key);
    FindsLeafIff(x.pages, t.dir, dirFull, r.key);
    assert !Astray(x.pages, r.key);
    InsertAgrees(x, t, r, full, dirFull);
    LeafIndex.InsertEntry(t, r, full);
    hide LeafIndex.TreeOk, LeafInsert, Astray, Sorted, Takes, Held, Path, Zeroed, Agrees;
    match LeafInsert(t.file, t.dir[i].block, r, full).1
    case None =>
    case Some(e) => OnePageEntry(x.pages, t, full, dirFull, i, e);
  }

  lemma {:induction false} OnePageEntry(pages: seq<DirPage>, t: LeafIndex.Tree, full: nat, dirFull: nat, i: nat, e: Entry)
    requires LeafIndex.TreeOk(t, full) && i < |t.dir| && t.dir[i].key < e.key && Below(e.key, LeafIndex.Next(t.dir, i))
    requires e.block == |t.file| && Holding(pages, RecsOf(t.dir), 0, dirFull)
    ensures Takes(pages, Rec(e.key, e.block, 0), dirFull)
    ensures OneOrGrown(IndexEntry(pages, Rec(e.key, e.block, 0), dirFull),
                       RecsOf(LeafIndex.WithEntry(t.dir, i, Some(e))), dirFull)
  {
    var rec := Rec(e.key, e.block, 0);
    SameEntry(t.dir, i, e);
    EntryIsNew(t, full, i, e);
    OneInsert(pages, RecsOf(t.dir), rec, dirFull);
    Put(pages[0], rec);
  }

  /** One more insertion into such an index, for a key that is not astray. */
  lemma {:induction false} OnePageStep(least: int, rs: seq<Rec>, r: Rec, full: nat, dirFull: nat, room: nat)
    requires full >= 2 && 3 <= dirFull <= room && OnePage(least, rs, full, dirFull, room) && least <= r.key
    requires !Zeroed(RecsOf(LeafIndex.InsertAll(least, rs, full).dir), r.key)
    ensures LeafIndex.FromLeast(rs + [r], least) && Steady(least, rs + [r], full, dirFull, room)
    ensures LeafIndex.InsertAll(least, rs + [r], full) ==
            LeafIndex.InsertOnto(LeafIndex.InsertAll(least, rs, full), r, full)
    ensures InsertAll(least, rs + [r], full, dirFull, room).Some?
    ensures OneOrGrown(InsertAll(least, rs + [r], full, dirFull, room).value.pages,
                       RecsOf(LeafIndex.InsertAll(least, rs + [r], full).dir), dirFull)
  {
    RunAgrees(least, rs, full, dirFull, room);
    Snoc(least, rs, r, full, dirFull, room);
    LeafIndex.RunSnoc(least, rs, r, full);
    hide Holding, Zeroed, Insert, Fits, Astray, LeafIndex.TreeOk, OneOrGrown, InsertAll, LeafIndex.InsertAll, Steady;
    OnePageInsert(InsertAll(least, rs, full, dirFull, room).value, LeafIndex.InsertAll(least, rs, full), r, full, dirFull);
  }

  /** The record is above all others, and the last leaf has no chain. */
  ghost predicate AtEnd(t: LeafIndex.Tree, r: Rec) {
    && t.dir != [] && t.dir[|t.dir| - 1].block < |t.file| && t.dir[|t.dir| - 1].key <= r.key
    && var last := t.file[t.dir[|t.dir| - 1].block];
       last.flag == -1 && (forall i :: 0 <= i < |last.recs| ==> last.recs[i].key < r.key) &&
       (forall i, j :: 0 <= i < j < |last.recs| ==> last.recs[i].key < last.recs[j].key)
  }

  /** The tree with such a record: behind the others of the last leaf, whose upper half moves when it is full. */
  ghost function Appended(t: LeafIndex.Tree, r: Rec, full: nat): LeafIndex.Tree
    requires AtEnd(t, r) && full >= 2
  {
    var b := t.dir[|t.dir| - 1].block;
    var recs := t.file[b].recs + [r];
    if |recs| < full then LeafIndex.Tree(t.file[b := Leaf(-1, recs)], t.dir)
    else
      var mid := |recs| / 2;
      LeafIndex.Tree(t.file[b := Leaf(-1, recs[..mid])] + [Leaf(-1, recs[mid..])],
                     t.dir + [Entry(recs[mid].key, |t.file|)])
  }

  lemma {:induction false} LeafAppend(file: seq<Leaf>, b: nat, r: Rec, full: nat)
    requires b < |file| && full >= 2 && file[b].flag == -1 && Sorted(file[b].recs)
    requires forall i :: 0 <= i < |file[b].recs| ==> file[b].recs[i].key < r.key
    requires forall i, j :: 0 <= i < j < |file[b].recs| ==> file[b].recs[i].key < file[b].recs[j].key
    ensures var recs := file[b].recs + [r];
            var mid := |recs| / 2;
            LeafInsert(file, b, r, full) ==
            if |recs| < full then (file[b := Leaf(-1, recs)], None)
            else (file[b := Leaf(-1, recs[..mid])] + [Leaf(-1, recs[mid..])], Some(Entry(recs[mid].key, |file|)))
  {
    AddedLast(file[b].recs, r);
    var recs := file[b].recs + [r];
    if |recs| >= full {
      SplitInMiddle(file[b := Leaf(-1, recs)], b);
      Overwrite(file, [], b, Leaf(-1, recs), Leaf(-1, recs[..|recs| / 2]));
    }
  }

  lemma {:induction false} InsertIsAppend(t: LeafIndex.Tree, r: Rec, full: nat)
    requires full >= 2 && LeafIndex.TreeOk(t, full) && t.dir[0].key <= r.key && AtEnd(t, r)
    ensures LeafIndex.Insert(t, r, full) == Appended(t, r, full)
  {
    var n := |t.dir| - 1;
    LeafIndex.LeafOfKey(t, full, r.key);
    assert LeafIndex.Route(t.dir, r.key) == n by {
      assert Ascending(RecsOf(t.dir));
      RouteOfIs(RecsOf(t.dir), r.key, n);
    }
    LeafAppend(t.file, t.dir[n].block, r, full);
    hide LeafIndex.TreeOk, LeafInsert, Sorted, LeafIndex.BlocksIn, LeafIndex.Route;
  }

  /** Between different keys, the split is in the middle. */
  lemma {:induction false} SplitInMiddle(file: seq<Leaf>, b: nat)
    requires b < |file| && |file[b].recs| >= 2
    requires forall i, j :: 0 <= i < j < |file[b].recs| ==> file[b].recs[i].key < file[b].recs[j].key
    ensures Sorted(file[b].recs)
    ensures var recs := file[b].recs;
            var mid := |recs| / 2;
            SplitLeaf(file, b) ==
            (file[b := Leaf(file[b].flag, recs[..mid])] + [Leaf(-1, recs[mid..])], Some(Entry(recs[mid].key, |file|)))
  {
    var recs := file[b].recs;
    SlotIs(recs, recs[|recs| / 2].key, |recs| / 2 - 1);
  }

  /** A steady run with one directory page that has led to this tree. */
  ghost predicate Reached(least: int, rs: seq<Rec>, t: LeafIndex.Tree, full: nat, dirFull: nat, room: nat)
    requires full >= 2 && room > 0
  {
    OnePage(least, rs, full, dirFull, room) && LeafIndex.InsertAll(least, rs, full) == t
  }

  /** The next insertion of such a run, for a record above all others. */
  lemma {:induction false} NextReached(least: int, rs: seq<Rec>, t: LeafIndex.Tree, r: Rec, rs': seq<Rec>,
                                       t': LeafIndex.Tree, full: nat, dirFull: nat, room: nat)
    requires full >= 2 && 3 <= dirFull <= room && Reached(least, rs, t, full, dirFull, room) && least <= r.key
    requires AtEnd(t, r) && !Zeroed(RecsOf(t.dir), r.key) && rs' == rs + [r] && t' == Appended(t, r, full)
    ensures LeafIndex.FromLeast(rs', least) && LeafIndex.InsertAll(least, rs', full) == t'
    ensures Steady(least, rs', full, dirFull, room) && InsertAll(least, rs', full, dirFull, room).Some?
    ensures OneOrGrown(InsertAll(least, rs', full, dirFull, room).value.pages, RecsOf(t'.dir), dirFull)
    ensures |t'.dir| < dirFull ==> Reached(least, rs', t', full, dirFull, room)
  {
    RunAgrees(least, rs, full, dirFull, room);
    InsertIsAppend(t, r, full);
    hide LeafIndex.TreeOk, LeafIndex.Insert, Appended, AtEnd, Holding, Steady, InsertAll, Zeroed;
    OnePageStep(least, rs, r, full, dirFull, room);
  }

  lemma {:induction false} FirstReached(least: int, full: nat, dirFull: nat, room: nat)
    requires full >= 2 && 3 <= dirFull <= room
    ensures Reached(least, [], LeafIndex.Tree([Leaf(-1, [])], [Entry(least, 0)]), full, dirFull, room)
  {
    assert RecsOf(LeafIndex.EmptyTree(least).dir) == [Rec(least, 0, 0)];
    FreshHas([Rec(least, 0, 0)], room, dirFull);
    assert Holding(Empty(least, room).pages, [Rec(least, 0, 0)], 0, dirFull);
  }

  /** The tree of one leaf. */
  function OneLeaf(recs: seq<Rec>): LeafIndex.Tree {
    LeafIndex.Tree([Leaf(-1, recs)], [Entry(-1000, 0)])
  }

  lemma {:induction false} OneLeafNext(recs: seq<Rec>, r: Rec, full: nat)
    requires full >= 2 && -1000 <= r.key && forall i :: 0 <= i < |recs| ==> recs[i].key < r.key
    requires forall i, j :: 0 <= i < j < |recs| ==> recs[i].key < recs[j].key
    ensures OneLeaf(recs).dir != [] && AtEnd(OneLeaf(recs), r) && !Zeroed(RecsOf(OneLeaf(recs).dir), r.key)
    ensures |recs| + 1 < full ==> Appended(OneLeaf(recs), r, full) == OneLeaf(recs + [r])
    ensures |recs| + 1 >= full ==>
      var all := recs + [r];
      var mid := |all| / 2;
      Appended(OneLeaf(recs), r, full) ==
      LeafIndex.Tree([Leaf(-1, all[..mid]), Leaf(-1, all[mid..])], [Entry(-1000, 0), Entry(all[mid].key, 1)])
  {
  }

  ghost predicate Rising(rs: seq<Rec>) {
    (forall i :: 0 <= i < |rs| ==> -1000 <= rs[i].key) && forall i, j :: 0 <= i < j < |rs| ==> rs[i].key < rs[j].key
  }

  /** Rising keys that do not fill the first leaf. */
  lemma {:induction false} RisingReached(rs: seq<Rec>, full: nat, dirFull: nat, room: nat)
    requires full >= 2 && 3 <= dirFull <= room && Rising(rs) && |rs| < full
    ensures Reached(-1000, rs, OneLeaf(rs), full, dirFull, room)
  {
    if rs == [] {
      FirstReached(-1000, full, dirFull, room);
    } else {
      var before, r := rs[..|rs| - 1], rs[|rs| - 1];
      assert rs == before + [r];
      OneLeafNext(before, r, full);
      hide Reached, AtEnd, Appended, Zeroed, OneLeaf, Rising;
      assert Rising(before) by {
        RisingBefore(rs);
      }
      RisingReached(before, full, dirFull, room);
      NextReached(-1000, before, OneLeaf(before), r, rs, OneLeaf(rs), full, dirFull, room);
    }
  }

  lemma RisingBefore(rs: seq<Rec>)
    requires Rising(rs) && rs != []
    ensures Rising(rs[..|rs| - 1])
  {
  }

  /** A run that ends with one directory page, under whose separators the key 0 goes to leaf 0. */
  lemma {:induction false} ZeroGoesAstray(least: int, rs: seq<Rec>, t: LeafIndex.Tree, full: nat, dirFull: nat, room: nat)
    requires full >= 2 && 3 <= dirFull <= room && Reached(least, rs, t, full, dirFull, room) && least <= 0
    requires t.dir != [] && Zeroed(RecsOf(t.dir), 0)
    ensures InsertAll(least, rs, full, dirFull, room).Some?
    ensures Lookup(InsertAll(least, rs, full, dirFull, room).value, 0) == Some([])
  {
    var x := InsertAll(least, rs, full, dirFull, room).value;
    RunAgrees(least, rs, full, dirFull, room);
    OneSearch(x.pages, RecsOf(t.dir), dirFull, 0);
    AstrayFinds(x, t, full, dirFull, 0);
  }

  lemma {:induction false} LastOfThree(a: Rec, b: Rec, c: Rec)
    requires a.key != c.key && b.key != c.key
    ensures WithKey([a, b, c], c.key) == [c]
  {
    assert [a, b, c][1..] == [b, c] && [b, c][1..] == [c] && [c][1..] == [];
    assert WithKey([c], c.key) == [c];
    assert WithKey([b, c], c.key) == [c];
  }

  /** The keys -5, -3 and 0, three of which fill a leaf: the split gives the last two a leaf of their own, and the
      search for 0 goes to the other one. */
  lemma {:induction false} ZeroLost(dirFull: nat, room: nat)
    requires 3 <= dirFull <= room
    ensures var rs := [Rec(-5, 0, 0), Rec(-3, 0, 1), Rec(0, 0, 2)];
            Steady(-1000, rs, 3, dirFull, room) && InsertAll(-1000, rs, 3, dirFull, room).Some? &&
            WithKey(rs, 0) == [Rec(0, 0, 2)] && Lookup(InsertAll(-1000, rs, 3, dirFull, room).value, 0) == Some([])
  {
    var a, b, c := Rec(-5, 0, 0), Rec(-3, 0, 1), Rec(0, 0, 2);
    LastOfThree(a, b, c);
    var ab, abc := [a, b], [a, b, c];
    var t := LeafIndex.Tree([Leaf(-1, [a]), Leaf(-1, [b, c])], [Entry(-1000, 0), Entry(-3, 1)]);
    assert ab + [c] == abc && abc[..1] == [a] && abc[1..] == [b, c] && |abc| / 2 == 1;
    OneLeafNext(ab, c, 3);
    RisingReached(ab, 3, dirFull, room);
    assert Zeroed(RecsOf(t.dir), 0);
    hide *;
    assert t == Appended(OneLeaf(ab), c, 3);
    NextReached(-1000, ab, OneLeaf(ab), c, abc, t, 3, dirFull, room);
    ZeroGoesAstray(-1000, abc, t, 3, dirFull, room);
  }

  /** A root with three entries that has grown. */
  lemma {:induction false} ThirdAstray(pages: seq<DirPage>, dir: seq<Entry>)
    requires |dir| == 3 && dir[0].key < dir[1].key < dir[2].key && dir[2].block != 1 && OneOrGrown(pages, RecsOf(dir), 3)
    ensures Astray(pages, dir[2].key)
  {
    hide Grown, Astray, Holding, HalfOf, Zeroed;
    var p: DirPage :| p.level == 0 && p.count == 3 <= |p.slots| && p.Recs() == RecsOf(dir) && pages == Grown(p);
    assert Ascending(p.Recs()) && p.slots[2] == p.Recs()[2] == Rec(dir[2].key, dir[2].block, 0);
    hide *;
    GrownAstray(p, dir[2].key);
  }

  /** The keys 10, 20 and 30, with leaves and directory pages that two and three records fill: the third leaf's entry
      makes the root grow, and the search for 30 takes the leaf's number for a page's. */
  lemma {:induction false} LastLost(room: nat)
    requires 3 <= room
    ensures var rs := [Rec(10, 0, 0), Rec(20, 0, 1), Rec(30, 0, 2)];
            Steady(-1000, rs, 2, 3, room) && InsertAll(-1000, rs, 2, 3, room).Some? &&
            WithKey(rs, 30) == [Rec(30, 0, 2)] && !Exact(InsertAll(-1000, rs, 2, 3, room).value, rs, 30)
  {
    var a, b, c := Rec(10, 0, 0), Rec(20, 0, 1), Rec(30, 0, 2);
    LastOfThree(a, b, c);
    var ab, abc := [a, b], [a, b, c];
    assert ab + [c] == abc;
    var t2 := LeafIndex.Tree([Leaf(-1, [a]), Leaf(-1, [b])], [Entry(-1000, 0), Entry(20, 1)]);
    var t3 := LeafIndex.Tree([Leaf(-1, [a]), Leaf(-1, [b]), Leaf(-1, [c])], [Entry(-1000, 0), Entry(20, 1), Entry(30, 2)]);
    TwoLeavesNext(t2, t3, b, c);
    hide *;
    TwoLeavesReached(a, b, t2, room);
    NextReached(-1000, ab, t2, c, abc, t3, 2, 3, room);
    ThirdAstray(InsertAll(-1000, abc, 2, 3, room).value.pages, t3.dir);
    RunExactIff(-1000, abc, 2, 3, room, 30);
  }

  lemma {:induction false} TwoLeavesReached(a: Rec, b: Rec, t: LeafIndex.Tree, room: nat)
    requires -1000 <= a.key < b.key && 3 <= room
    requires t == LeafIndex.Tree([Leaf(-1, [a]), Leaf(-1, [b])], [Entry(-1000, 0), Entry(b.key, 1)])
    ensures Reached(-1000, [a, b], t, 2, 3, room)
  {
    var ab := [a, b];
    assert [a] + [b] == ab && ab[..1] == [a] && ab[1..] == [b];
    OneLeafNext([a], b, 2);
    RisingReached([a], 2, 3, room);
    hide *;
    assert t == Appended(OneLeaf([a]), b, 2);
    NextReached(-1000, [a], OneLeaf([a]), b, ab, t, 2, 3, room);
  }

  lemma {:induction false} TwoLeavesNext(t: LeafIndex.Tree, t': LeafIndex.Tree, b: Rec, c: Rec)
    requires |t.file| == 2 && t.file[1] == Leaf(-1, [b]) && b.key < c.key && |t.dir| == 2 && t.dir[1].block == 1
    requires t.dir[1].key <= c.key != 0
    requires t' == LeafIndex.Tree([t.file[0], t.file[1], Leaf(-1, [c])], [t.dir[0], t.dir[1], Entry(c.key, 2)])
    ensures AtEnd(t, c) && !Zeroed(RecsOf(t.dir), c.key) && t' == Appended(t, c, 2)
  {
    assert [b] + [c] == [b, c] && [b, c][..1] == [b] && [b, c][1..] == [c];
  }
}
