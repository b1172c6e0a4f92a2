/** A directory of one page, or of a root over two pages, as a growing list of separators. */
module DirectoryTree {
  import opened Storage
  import opened LeafTree
  import opened DirectoryPages

  /** No slot of the page has been used and given up. */
  ghost predicate Clean(p: DirPage) {
    p.Fits() && forall i :: p.count <= i < |p.slots| ==> p.slots[i] == DefaultRec
  }

  ghost predicate Distinct(recs: seq<Rec>) {
    forall i, j :: 0 <= i < j < |recs| ==> recs[i].block != recs[j].block
  }

  ghost predicate PageHas(p: DirPage, recs: seq<Rec>, full: nat) {
    p.level == 0 && Clean(p) && p.Recs() == recs && 0 < |recs| < full <= |p.slots|
  }

  /** A root over two pages, with one of the separators left over in its third slot. */
  ghost predicate RootOver(root: DirPage, recs: seq<Rec>, m: nat)
    requires m < |recs|
  {
    && root.level == 1 && root.count == 2 < |root.slots|
    && root.slots[0] == Rec(recs[0].key, 2, 0) && root.slots[1] == Rec(recs[m].key, 1, 0) && root.slots[2] in recs
  }

  /** The file holds the entries: all in the root, or the first `m` in page 2 and the others in page 1. */
  ghost predicate Holding(file: seq<DirPage>, recs: seq<Rec>, m: nat, full: nat) {
    && full >= 3 && recs != [] && Ascending(recs) && Distinct(recs) && m < |recs|
    && if m == 0 then |file| == 1 && PageHas(file[0], recs, full)
       else |file| == 3 && RootOver(file[0], recs, m) &&
            PageHas(file[1], recs[m..], full) && PageHas(file[2], recs[..m], full)
  }

  // ---- exactly which searches are right ----

  /** The search in the file ends at the leaf. */
  ghost predicate Finds(file: seq<DirPage>, key: int, leaf: int) {
    Path(file, 0, key) && SearchResult(file, 0, key) == leaf
  }

  /** The key in never-used slots is 0: above the separators of its page, it goes to leaf 0. */
  predicate Zeroed(recs: seq<Rec>, key: int)
    requires recs != []
  {
    var last := recs[|recs| - 1];
    key == 0 && last.key < 0 && last.block != 0
  }

  /** The root's third slot names a leaf for the key, and the leaf's number is taken for a page's. */
  predicate Stray(root: DirPage, key: int)
    requires |root.slots| > 2
  {
    root.slots[1].key < key == root.slots[2].key && root.slots[2].block != 1
  }

  /** The page at level 0 for a key. */
  function PageFor(file: seq<DirPage>, key: int): (c: nat)
    requires |file| == 3
    ensures c < 3
  {
    if |file[0].slots| > 1 && key < file[0].slots[1].key then 2 else 1
  }

  predicate ZeroedIn(p: DirPage, key: int) {
    p.Fits() && p.count > 0 && Zeroed(p.Recs(), key)
  }

  /** What sends a search wrong, in a directory of one page or of three. */
  predicate Astray(file: seq<DirPage>, key: int) {
    if |file| == 3 then (|file[0].slots| > 2 && Stray(file[0], key)) || ZeroedIn(file[PageFor(file, key)], key)
    else |file| > 0 && ZeroedIn(file[0], key)
  }

  lemma {:induction false} PageFinds(p: DirPage, recs: seq<Rec>, full: nat, key: int)
    requires PageHas(p, recs, full) && Ascending(recs) && recs[0].key <= key
    ensures PageReady(p) && p.slots[0].key <= key
    ensures FoundChild(p, key) == if Zeroed(recs, key) then 0 else RightChild(recs, key)
  {
    assert recs[0] == p.slots[0] && recs[|recs| - 1] == p.slots[p.count - 1];
    RoutedIff(p, key);
  }

  lemma {:induction false} OneSearch(file: seq<DirPage>, recs: seq<Rec>, full: nat, key: int)
    requires |file| == 1 && PageHas(file[0], recs, full) && Ascending(recs) && recs[0].key <= key
    ensures Path(file, 0, key)
    ensures SearchResult(file, 0, key) == if Zeroed(recs, key) then 0 else RightChild(recs, key)
  {
    PageFinds(file[0], recs, full, key);
  }

  /** Through the right page of two. */
  lemma {:induction false} TwoSearch(file: seq<DirPage>, recs: seq<Rec>, m: nat, full: nat, key: int)
    requires Holding(file, recs, m, full) && m > 0 && recs[0].key <= key && !Stray(file[0], key)
    ensures var half := HalfOf(recs, m, key);
            Path(file, 0, key) &&
            SearchResult(file, 0, key) == if Zeroed(half, key) then 0 else RightChild(recs, key)
  {
    var c := if key < recs[m].key then 2 else 1;
    assert recs[0].key < recs[m].key;
    TwoEntries(file[0], key);
    HalfRoutes(recs, m, key);
    PageFinds(file[c], HalfOf(recs, m, key), full, key);
    hide FoundChild, RightChild, Zeroed, Clean, Ascending, Distinct, PageReady;
    assert Path(file, c, key);
  }

  /** From the root one level down. */
  lemma {:induction false} DownOne(file: seq<DirPage>, key: int)
    requires Path(file, 0, key) && file[0].level == 1
    ensures var c := FoundChild(file[0], key);
            0 < c < |file| && Path(file, c, key) && SearchResult(file, 0, key) == FoundChild(file[c], key)
  {
    hide FoundChild;
  }

  /** Through the leaf's number that is taken for a page's: to no page below the root, or to the wrong one. */
  lemma {:induction false} StrayMisses(file: seq<DirPage>, recs: seq<Rec>, m: nat, full: nat, key: int)
    requires Holding(file, recs, m, full) && m > 0 && Stray(file[0], key)
    ensures recs[0].key <= key && !Finds(file, key, RightChild(recs, key))
  {
    var root, s := file[0], file[0].slots[2];
    var j :| 0 <= j < |recs| && recs[j] == s;
    assert recs[0].key < recs[m].key;
    assert forall i :: 0 <= i <= m ==> recs[i].key <= recs[m].key;
    RouteOfIs(recs, key, j);
    assert j > m && RightChild(recs, key) == s.block;
    TwoEntries(root, key);
    hide FoundChild, RightChild, PageReady;
    if Path(file, 0, key) {
      DownOne(file, key);
      LowerMisses(file[2], recs, m, full, key, j);
    }
  }

  lemma {:induction false} LowerMisses(p: DirPage, recs: seq<Rec>, m: nat, full: nat, key: int, j: nat)
    requires Ascending(recs) && Distinct(recs) && 0 < m <= j < |recs| && recs[0].key <= key
    requires PageHas(p, recs[..m], full) && recs[j].block == 2
    ensures PageReady(p) && p.slots[0].key <= key && FoundChild(p, key) != recs[j].block
  {
    PageFinds(p, recs[..m], full, key);
    var i := RouteOf(recs[..m], key);
    assert recs[..m][i] == recs[i];
  }

  /** A search ends at the leaf with the greatest separator not above its key exactly unless the key is astray. */
  lemma {:induction false} SearchIff(file: seq<DirPage>, recs: seq<Rec>, m: nat, full: nat, key: int)
    requires Holding(file, recs, m, full) && recs[0].key <= key
    ensures Finds(file, key, RightChild(recs, key)) <==> !Astray(file, key)
  {
    if m == 0 {
      OneSearch(file, recs, full, key);
      LastRoute(recs, key);
    } else if Stray(file[0], key) {
      StrayMisses(file, recs, m, full, key);
    } else {
      TwoSearch(file, recs, m, full, key);
      HalfRoutes(recs, m, key);
      LastRoute(HalfOf(recs, m, key), key);
    }
  }

  lemma {:induction false} LastRoute(recs: seq<Rec>, key: int)
    requires Ascending(recs) && recs != [] && recs[0].key <= key
    ensures Zeroed(recs, key) ==> RightChild(recs, key) != 0
  {
    if Zeroed(recs, key) {
      RouteOfIs(recs, key, |recs| - 1);
    }
  }

  // ---- a root that has just grown ----

  lemma {:induction false} GrownHolds(p: DirPage, full: nat)
    requires 3 <= p.count <= full <= |p.slots| && p.level == 0 && Ascending(p.Recs()) && Distinct(p.Recs())
    ensures Holding(Grown(p), p.Recs(), p.count / 2, full)
  {
    var recs, m := p.Recs(), p.count / 2;
    GrownRoot(p);
    assert recs[0] == p.slots[0] && recs[m] == p.slots[m];
    assert recs[m - 1] == p.slots[m - 1] && recs[p.count - 1] == p.slots[p.count - 1];
    FreshHas(recs[m..], |p.slots|, full);
    FreshHas(recs[..m], |p.slots|, full);
    hide Grown, FreshPage, PageHas, Ascending, Distinct;
  }

  lemma {:induction false} FreshHas(recs: seq<Rec>, room: nat, full: nat)
    requires 0 < |recs| < full <= room
    ensures PageHas(FreshPage(0, recs, room), recs, full)
  {
  }

  lemma {:induction false} GrownAstray(p: DirPage, key: int)
    requires 3 <= p.count <= |p.slots| && Ascending(p.Recs()) && p.level == 0
    ensures var last, half := p.slots[p.count - 1], HalfOf(p.Recs(), p.count / 2, key);
            half != [] &&
            (Astray(Grown(p), key) <==> (p.count <= 5 && key == last.key && last.block != 1) || Zeroed(half, key))
  {
    var recs, m := p.Recs(), p.count / 2;
    GrownRoot(p);
    assert recs[m] == p.slots[m] && p.slots[m].key < p.slots[p.count - 1].key by {
      assert recs[m].key < recs[p.count - 1].key;
    }
    assert m > 2 ==> p.slots[m - 1].key < p.slots[m].key by {
      assert m > 2 ==> recs[m - 1].key < recs[m].key;
    }
    hide Grown, Ascending, Zeroed, FreshPage;
    assert Grown(p)[PageFor(Grown(p), key)] == FreshPage(0, HalfOf(recs, m, key), |p.slots|);
  }

  /** After the root has grown, a search ends at the right leaf exactly unless its key is the last separator, at most
      five entries fill a page and that separator's leaf is not block 1, or its key is 0 above the separators of its
      half. */
  lemma {:induction false} GrownSearchIff(p: DirPage, key: int)
    requires 3 <= p.count <= |p.slots| && Ascending(p.Recs()) && Distinct(p.Recs()) && p.level == 0
    requires p.slots[0].key <= key
    ensures var last, half := p.slots[p.count - 1], HalfOf(p.Recs(), p.count / 2, key);
            half != [] &&
            (Finds(Grown(p), key, RightChild(p.Recs(), key)) <==>
             !(p.count <= 5 && key == last.key && last.block != 1) &&
             !(key == 0 && half[|half| - 1].key < 0 && half[|half| - 1].block != 0))
  {
    assert p.Recs()[0] == p.slots[0];
    GrownHolds(p, p.count);
    GrownAstray(p, key);
    hide Grown, Ascending, Distinct, Finds, RightChild, Astray;
    SearchIff(Grown(p), p.Recs(), p.count / 2, p.count, key);
  }

  // ---- a new entry ----

  /** BTreeDirectory::Insert: down to level 0; an entry for a split page is handed up as it is. */
  ghost function DirInsert(file: seq<DirPage>, b: int, e: Rec, full: nat): (res: (seq<DirPage>, Option<Entry>))
    requires Path(file, b, e.key)
    ensures |file| <= |res.0|
    decreases file[b].level
  {
    if file[b].level == 0 then InsertEntry(file, b, e, full)
    else DirInsert(file, FoundChild(file[b], e.key), e, full)
  }

  /** There is a way down for the entry, and the root stays fit for a new level. */
  ghost predicate Takes(file: seq<DirPage>, e: Rec, full: nat) {
    && Path(file, 0, e.key)
    && var pages := DirInsert(file, 0, e, full).0;
       pages != [] && 0 < pages[0].count < |pages[0].slots| && |pages[0].slots| >= 3
  }

  /** BTreeIndex::Insert with a leaf's entry: the root gets a new level for an entry that is handed up. */
  ghost function IndexEntry(file: seq<DirPage>, e: Rec, full: nat): seq<DirPage>
    requires Takes(file, e, full)
  {
    var (pages, split) := DirInsert(file, 0, e, full);
    match split
    case None => pages
    case Some(s) => MakeNewRoot(pages, 0, Rec(s.key, s.block, 0))
  }

  ghost predicate NewEntry(recs: seq<Rec>, e: Rec) {
    recs != [] && recs[0].key < e.key && forall r :: r in recs ==> r.key != e.key && r.block != e.block
  }

  /** The page that takes the entry does not split, or it is the root itself. */
  predicate HasRoom(file: seq<DirPage>, key: int, full: nat) {
    |file| == 3 ==> file[PageFor(file, key)].count + 1 < full
  }

  /** The number of entries of the lower page afterwards. */
  function NewSplit(recs: seq<Rec>, m: nat, key: int, full: nat): nat
    requires m < |recs|
  {
    if m > 0 then (if key < recs[m].key then m + 1 else m)
    else if |recs| + 1 < full then 0 else (|recs| + 1) / 2
  }

  lemma {:induction false} AddedOk(recs: seq<Rec>, e: Rec)
    requires Ascending(recs) && Distinct(recs) && NewEntry(recs, e)
    ensures Ascending(Added(recs, e)) && Distinct(Added(recs, e)) && Added(recs, e)[0] == recs[0]
  {
    var i := SlotBefore(recs, e.key) + 1;
    InsertedAt(recs, i, e);
    InsertAscending(recs, i, e);
    var all := Added(recs, e);
    forall j, k | 0 <= j < k < |all| ensures all[j].block != all[k].block {
      assert all[j] == e || all[j] == recs[if j < i then j else j - 1];
      assert all[k] == e || all[k] == recs[if k < i then k else k - 1];
    }
  }

  /** The records of a page with a new entry. */
  lemma {:induction false} Put(p: DirPage, e: Rec)
    requires p.count < |p.slots|
    ensures var p' := WithSeparator(p, e);
            p'.Fits() && p'.Recs() == Added(p.Recs(), e) && p'.level == p.level && |p'.slots| == |p.slots| &&
            (Clean(p) ==> Clean(p'))
  {
  }

  lemma {:induction false} InsertedInside(recs: seq<Rec>, m: nat, i: nat, e: Rec)
    requires m <= |recs| && i <= |recs|
    ensures var all := InsertAt(recs, i, e);
            (i <= m ==> all[..m + 1] == InsertAt(recs[..m], i, e) && all[m + 1..] == recs[m..]) &&
            (m <= i ==> all[..m] == recs[..m] && all[m..] == InsertAt(recs[m..], i - m, e))
  {
  }

  lemma {:induction false} AddedBelow(recs: seq<Rec>, m: nat, e: Rec)
    requires Ascending(recs) && m < |recs| && e.key < recs[m].key
    ensures Added(recs, e)[..m + 1] == Added(recs[..m], e) && Added(recs, e)[m + 1..] == recs[m..]
  {
    var s := SlotBefore(recs, e.key);
    SlotIs(recs[..m], e.key, s);
    hide InsertAt;
    InsertedInside(recs, m, s + 1, e);
  }

  lemma {:induction false} AddedAbove(recs: seq<Rec>, m: nat, e: Rec)
    requires Ascending(recs) && m < |recs| && recs[m].key < e.key
    ensures Added(recs, e)[..m] == recs[..m] && Added(recs, e)[m..] == Added(recs[m..], e)
  {
    var s := SlotBefore(recs, e.key);
    SlotIs(recs[m..], e.key, s - m);
    hide InsertAt;
    InsertedInside(recs, m, s + 1, e);
  }

  /** Inserting in a root at level 0. */
  lemma {:induction false} OneInsert(file: seq<DirPage>, recs: seq<Rec>, e: Rec, full: nat)
    requires Holding(file, recs, 0, full) && NewEntry(recs, e)
    ensures Takes(file, e, full) && WithSeparator(file[0], e).Fits()
    ensures Holding(IndexEntry(file, e, full), Added(recs, e), NewSplit(recs, 0, e.key, full), full)
    ensures var p := WithSeparator(file[0], e);
            IndexEntry(file, e, full) == if |recs| + 1 < full then [p] else Grown(p)
  {
    hide WithSeparator, Added, Ascending, Distinct, Clean, SearchResult, MakeNewRoot, SplitPages, Grown, FoundChild;
    var p := WithSeparator(file[0], e);
    OneSearch(file, recs, full, e.key);
    AddedOk(recs, e);
    Put(file[0], e);
    if p.count < full {
      assert file[0 := p] == [p];
    } else {
      EntryGrows(file, 0, e, full);
      GrownHolds(p, full);
    }
  }

  lemma {:induction false} ChildOf(file: seq<DirPage>, recs: seq<Rec>, m: nat, key: int, full: nat)
    requires Holding(file, recs, m, full) && m > 0 && recs[0].key <= key && !Stray(file[0], key)
    ensures PageReady(file[0]) && file[0].slots[0].key <= key
    ensures FoundChild(file[0], key) == PageFor(file, key)
    ensures PageFor(file, key) == if key < recs[m].key then 2 else 1
  {
    assert recs[0].key < recs[m].key;
    TwoEntries(file[0], key);
  }

  /** The half with the new entry, in its page. */
  lemma {:induction false} HalfTakes(p: DirPage, recs: seq<Rec>, m: nat, e: Rec, full: nat)
    requires Ascending(recs) && 0 < m < |recs| && NewEntry(recs, e)
    requires PageHas(p, HalfOf(recs, m, e.key), full) && p.count + 1 < full
    ensures p.count < |p.slots| && WithSeparator(p, e).count < full
    ensures var all, n := Added(recs, e), NewSplit(recs, m, e.key, full);
            PageHas(WithSeparator(p, e), if e.key < recs[m].key then all[..n] else all[n..], full) &&
            (if e.key < recs[m].key then all[n..] == recs[m..] else all[..n] == recs[..m])
  {
    Put(p, e);
    if e.key < recs[m].key {
      AddedBelow(recs, m, e);
    } else {
      assert recs[m] in recs;
      AddedAbove(recs, m, e);
    }
  }

  lemma {:induction false} TwoHolds(file: seq<DirPage>, recs: seq<Rec>, m: nat, e: Rec, full: nat)
    requires Holding(file, recs, m, full) && m > 0 && NewEntry(recs, e) && HasRoom(file, e.key, full)
    requires PageFor(file, e.key) == if e.key < recs[m].key then 2 else 1
    ensures var c, n := PageFor(file, e.key), NewSplit(recs, m, e.key, full);
            file[c].count < |file[c].slots| && WithSeparator(file[c], e).count < full && n < |Added(recs, e)| &&
            Holding(file[c := WithSeparator(file[c], e)], Added(recs, e), n, full)
  {
    hide WithSeparator, Added, Ascending, Distinct, RootOver, NewEntry, PageHas, SlotBefore, InsertAt, PageFor;
    var n, all := NewSplit(recs, m, e.key, full), Added(recs, e);
    AddedOk(recs, e);
    SameRoot(file[0], recs, m, e, n);
    if e.key < recs[m].key {
      HalfTakes(file[2], recs, m, e, full);
      assert PageHas(file[1], all[n..], full);
    } else {
      HalfTakes(file[1], recs, m, e, full);
      assert PageHas(file[2], all[..n], full);
    }
  }

  lemma {:induction false} SameRoot(root: DirPage, recs: seq<Rec>, m: nat, e: Rec, n: nat)
    requires Ascending(recs) && 0 < m < |recs| && RootOver(root, recs, m) && NewEntry(recs, e)
    requires n == if e.key < recs[m].key then m + 1 else m
    ensures RootOver(root, Added(recs, e), n)
  {
    var i := SlotBefore(recs, e.key) + 1;
    InsertedAt(recs, i, e);
    var j :| 0 <= j < |recs| && recs[j] == root.slots[2];
    assert Added(recs, e)[if j < i then j else j + 1] == recs[j];
    assert recs[m] in recs;
    assert e.key < recs[m].key ==> i <= m;
    assert recs[m].key < e.key ==> i > m;
  }

  /** Inserting in a page below the root. */
  lemma {:induction false} TwoInsert(file: seq<DirPage>, recs: seq<Rec>, m: nat, e: Rec, full: nat)
    requires Holding(file, recs, m, full) && m > 0 && NewEntry(recs, e) && HasRoom(file, e.key, full)
    ensures Takes(file, e, full)
    ensures Holding(IndexEntry(file, e, full), Added(recs, e), NewSplit(recs, m, e.key, full), full)
    ensures IndexEntry(file, e, full) != [] && IndexEntry(file, e, full)[0] == file[0]
  {
    var c := PageFor(file, e.key);
    TwoSearch(file, recs, m, full, e.key);
    ChildOf(file, recs, m, e.key, full);
    TwoHolds(file, recs, m, e, full);
    hide FoundChild, WithSeparator, Added, Ascending, Distinct, Clean, SearchResult, HasRoom, PageFor;
    assert DirInsert(file, 0, e, full) == InsertEntry(file, c, e, full);
    assert IndexEntry(file, e, full) == file[c := WithSeparator(file[c], e)];
  }

  /** A new entry, whichever page takes it, leaves a directory with exactly one entry more. */
  lemma {:induction false} EntryHeld(file: seq<DirPage>, recs: seq<Rec>, m: nat, e: Rec, full: nat)
    requires Holding(file, recs, m, full) && NewEntry(recs, e) && HasRoom(file, e.key, full)
    ensures Takes(file, e, full)
    ensures Holding(IndexEntry(file, e, full), Added(recs, e), NewSplit(recs, m, e.key, full), full)
  {
    if m == 0 {
      OneInsert(file, recs, e, full);
    } else {
      TwoInsert(file, recs, m, e, full);
    }
  }

  /** The keys from the new separator up to the next one. */
  predicate Moves(recs: seq<Rec>, e: Rec, key: int)
    requires recs != [] && recs[0].key <= e.key && recs[0].key <= key
  {
    e.key <= key && RouteOf(recs, key) == RouteOf(recs, e.key)
  }

  lemma {:induction false} MovedRoutes(recs: seq<Rec>, e: Rec, key: int)
    requires Ascending(recs) && NewEntry(recs, e) && recs[0].key <= key
    ensures Added(recs, e)[0] == recs[0]
    ensures RightChild(Added(recs, e), key) == if Moves(recs, e, key) then e.block else RightChild(recs, key)
  {
    var i := SlotBefore(recs, e.key) + 1;
    RouteOfIs(recs, e.key, i - 1);
    InsertAscending(recs, i, e);
    InsertRoute(recs, i, e, key);
  }

  /** After an entry was inserted, with every page split and new root it brings, a search sends the keys from the new
      separator up to the next one to the new leaf and all other keys where they belonged before, exactly unless its
      key is astray in the new directory. */
  lemma {:induction false} StepSearchIff(file: seq<DirPage>, recs: seq<Rec>, m: nat, e: Rec, full: nat, key: int)
    requires Holding(file, recs, m, full) && NewEntry(recs, e) && HasRoom(file, e.key, full) && recs[0].key <= key
    ensures Takes(file, e, full)
    ensures var file', m' := IndexEntry(file, e, full), NewSplit(recs, m, e.key, full);
            Holding(file', Added(recs, e), m', full) &&
            (Finds(file', key, if Moves(recs, e, key) then e.block else RightChild(recs, key)) <==>
             !Astray(file', key))
  {
    EntryHeld(file, recs, m, e, full);
    MovedRoutes(recs, e, key);
    hide IndexEntry, DirInsert, Added, Moves, RightChild, Finds, Astray, NewEntry;
    SearchIff(IndexEntry(file, e, full), Added(recs, e), NewSplit(recs, m, e.key, full), full, key);
  }

  /** Only the keys from the new separator up to the next one change leaf. */
  lemma {:induction false} OnlyThoseMove(file: seq<DirPage>, recs: seq<Rec>, m: nat, e: Rec, full: nat, key: int)
    requires Holding(file, recs, m, full) && NewEntry(recs, e) && HasRoom(file, e.key, full) && recs[0].key <= key
    requires !Astray(file, key)
    ensures Takes(file, e, full) && Path(file, 0, key)
    ensures var file' := IndexEntry(file, e, full);
            !Astray(file', key) ==>
            Path(file', 0, key) &&
            SearchResult(file', 0, key) == if Moves(recs, e, key) then e.block else SearchResult(file, 0, key)
  {
    SearchIff(file, recs, m, full, key);
    StepSearchIff(file, recs, m, e, full, key);
    hide IndexEntry, DirInsert, Added, Moves, RightChild, Astray, NewEntry, Path, SearchResult;
  }

  // ---- searches that go astray ----

  /** Four separators fill a page: the search for the fourth takes a leaf's number for a page's, and leaves the file. */
  lemma {:induction false} LastSeparatorAstray()
    ensures var p := DirPage(0, 4, [Rec(-1000, 0, 0), Rec(10, 1, 0), Rec(20, 2, 0), Rec(30, 3, 0), DefaultRec]);
            FoundChild(Grown(p)[0], 30) == 3 && |Grown(p)| == 3 && !Path(Grown(p), 0, 30)
  {
    var p := DirPage(0, 4, [Rec(-1000, 0, 0), Rec(10, 1, 0), Rec(20, 2, 0), Rec(30, 3, 0), DefaultRec]);
    GrownRoot(p);
    var root := Grown(p)[0];
    assert root.slots[2] == Rec(30, 3, 0);
    TwoEntries(root, 30);
    hide Grown;
  }

  /** Three separators, the last with leaf 2: the search for it ends at leaf 0. */
  lemma {:induction false} LastSeparatorMisread()
    ensures var p := DirPage(0, 3, [Rec(-1000, 0, 0), Rec(10, 1, 0), Rec(20, 2, 0), DefaultRec]);
            Finds(Grown(p), 20, 0) && p.Recs() != [] && RightChild(p.Recs(), 20) == 2
  {
    var p := DirPage(0, 3, [Rec(-1000, 0, 0), Rec(10, 1, 0), Rec(20, 2, 0), DefaultRec]);
    GrownRoot(p);
    var file := Grown(p);
    assert file[2] == FreshPage(0, p.Recs()[..1], 4);
    TwoEntries(file[0], 20);
    FreshHas(p.Recs()[..1], 4, 3);
    PageFinds(file[2], p.Recs()[..1], 3, 20);
    assert RightChild(p.Recs()[..1], 20) == p.Recs()[..1][0].block == 0;
    RouteOfIs(p.Recs(), 20, 2);
    hide Grown, FoundChild, PageReady;
    assert Path(file, 2, 20);
    assert Path(file, 0, 20);
    DownOne(file, 20);
  }
}
