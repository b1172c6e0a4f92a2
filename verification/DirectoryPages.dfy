/** Directory pages as values, with every slot: those past the record count hold what was last written there. */
module DirectoryPages {
  import opened Storage
  import opened LeafTree

  datatype DirPage = DirPage(level: int, count: nat, slots: seq<Rec>) {
    predicate Fits() {
      count <= |slots|
    }

    function Recs(): (recs: seq<Rec>)
      requires Fits()
      ensures |recs| == count
    {
      slots[..count]
    }
  }

  /** A page that is not empty and not full, with one entry for each separator. */
  ghost predicate PageReady(p: DirPage) {
    0 < p.count < |p.slots| && Ascending(p.Recs())
  }

  // ---- the right child ----

  function RightChild(recs: seq<Rec>, key: int): int
    requires recs != [] && recs[0].key <= key
  {
    recs[RouteOf(recs, key)].block
  }

  // ---- the child that is found ----

  /** The slot after the smaller keys is read without regard to the record count. */
  function ChildSlot(p: DirPage, key: int): (s: int)
    requires p.count < |p.slots|
    ensures -1 <= s <= p.count
  {
    var s := SlotBefore(p.Recs(), key);
    if p.slots[s + 1].key == key then s + 1 else s
  }

  function FoundChild(p: DirPage, key: int): int
    requires 0 < p.count < |p.slots| && p.slots[0].key <= key
  {
    var s := ChildSlot(p, key);
    if s < 0 then 0 else p.slots[s].block
  }

  /** The slot past the last record happens to hold the key, which is above every separator. */
  predicate StaleHit(p: DirPage, key: int)
    requires 0 < p.count < |p.slots|
  {
    p.slots[p.count - 1].key < key == p.slots[p.count].key
  }

  /** The child is right unless an old record past the end names another one for just this key. */
  lemma {:induction false} RoutedIff(p: DirPage, key: int)
    requires PageReady(p) && p.slots[0].key <= key
    ensures FoundChild(p, key) == RightChild(p.Recs(), key) <==>
            !(StaleHit(p, key) && p.slots[p.count].block != p.slots[p.count - 1].block)
    ensures StaleHit(p, key) ==> FoundChild(p, key) == p.slots[p.count].block
    ensures ChildSlot(p, key) >= 0
  {
    var recs, s := p.Recs(), SlotBefore(p.Recs(), key);
    if StaleHit(p, key) {
      RouteOfIs(recs, key, p.count - 1);
      assert forall i :: 0 <= i < p.count ==> recs[i].key <= recs[p.count - 1].key;
      SlotIs(recs, key, p.count - 1);
    } else if s + 1 < p.count && recs[s + 1].key == key {
      RouteOfIs(recs, key, s + 1);
    } else {
      assert s + 1 < p.count ==> recs[s + 1].key > key;
      assert s >= 0;
      RouteOfIs(recs, key, s);
    }
  }

  // ---- a new entry ----

  function InsertSlots(slots: seq<Rec>, count: nat, i: nat, e: Rec): seq<Rec>
    requires i <= count < |slots|
  {
    InsertAt(slots[..count], i, e) + slots[count + 1..]
  }

  /** The entry goes before the first separator that is not below it. */
  function WithSeparator(p: DirPage, e: Rec): DirPage
    requires p.count < |p.slots|
  {
    DirPage(p.level, p.count + 1, InsertSlots(p.slots, p.count, SlotBefore(p.Recs(), e.key) + 1, e))
  }

  lemma {:induction false} InsertAscending(recs: seq<Rec>, i: nat, e: Rec)
    requires Ascending(recs) && 0 < i <= |recs|
    requires recs[i - 1].key < e.key && (i < |recs| ==> e.key < recs[i].key)
    ensures Ascending(InsertAt(recs, i, e)) && InsertAt(recs, i, e)[0] == recs[0]
  {
    var all := InsertAt(recs, i, e);
    assert forall k :: 0 <= k < |all| ==> all[k] == if k < i then recs[k] else if k == i then e else recs[k - 1];
    assert forall k :: 0 <= k < i ==> recs[k].key <= recs[i - 1].key;
    assert forall k :: i <= k < |recs| ==> recs[i].key <= recs[k].key;
  }

  lemma {:induction false} InsertRoute(recs: seq<Rec>, i: nat, e: Rec, key: int)
    requires Ascending(recs) && 0 < i <= |recs| && recs[0].key <= key && Ascending(InsertAt(recs, i, e))
    requires recs[i - 1].key < e.key && (i < |recs| ==> e.key < recs[i].key)
    ensures InsertAt(recs, i, e)[0] == recs[0]
    ensures RightChild(InsertAt(recs, i, e), key) ==
            if e.key <= key && RouteOf(recs, key) == i - 1 then e.block else RightChild(recs, key)
  {
    var all, j := InsertAt(recs, i, e), RouteOf(recs, key);
    InsertedAt(recs, i, e);
    hide InsertAt, Ascending;
    var j' := if j >= i || (j == i - 1 && e.key <= key) then j + 1 else j;
    assert j' < |all| && all[j'] == if j' == i then e else recs[j];
    assert j' + 1 < |all| ==> key < all[j' + 1].key;
    RouteOfIs(all, key, j');
  }

  lemma {:induction false} InsertedAt(recs: seq<Rec>, i: nat, e: Rec)
    requires i <= |recs|
    ensures var all := InsertAt(recs, i, e);
            |all| == |recs| + 1 &&
            forall k :: 0 <= k < |all| ==> all[k] == if k < i then recs[k] else if k == i then e else recs[k - 1]
  {
  }

  // ---- splitting ----

  const DefaultRec := Rec(0, 0, 0)

  function Copies(n: nat, r: Rec): (rs: seq<Rec>)
    ensures |rs| == n && forall i :: 0 <= i < n ==> rs[i] == r
  {
    seq(n, _ => r)
  }

  /** A page whose records from a position on were moved out: copies of its last record stay behind. */
  function Emptied(p: DirPage, pos: nat): DirPage
    requires p.Fits() && pos <= p.count
  {
    if pos == p.count then p
    else DirPage(p.level, pos, p.slots[..pos] + Copies(p.count - pos, p.slots[p.count - 1]) + p.slots[p.count..])
  }

  /** A new page: default records behind its own. */
  function FreshPage(level: int, recs: seq<Rec>, room: nat): (p: DirPage)
    requires |recs| <= room
    ensures p.Fits() && |p.slots| == room && p.Recs() == recs
    ensures |recs| < room ==> p.slots[|recs|] == DefaultRec
  {
    DirPage(level, |recs|, recs + Copies(room - |recs|, DefaultRec))
  }

  function SplitPages(file: seq<DirPage>, b: nat, pos: nat): seq<DirPage>
    requires b < |file| && file[b].Fits() && pos <= file[b].count
  {
    var p := file[b];
    file[b := Emptied(p, pos)] + [FreshPage(p.level, p.Recs()[pos..], |p.slots|)]
  }

  /** A page that gets full by a new entry is split in the middle. */
  function InsertEntry(file: seq<DirPage>, b: nat, e: Rec, full: nat): (seq<DirPage>, Option<Entry>)
    requires b < |file| && file[b].count < |file[b].slots|
  {
    var p := WithSeparator(file[b], e);
    var file' := file[b := p];
    if p.count < full then (file', None)
    else (SplitPages(file', b, p.count / 2), Some(Entry(p.slots[p.count / 2].key, |file|)))
  }

  /** All records of the root move to a new page; the root keeps one entry for it and one for the other half. */
  function MakeNewRoot(file: seq<DirPage>, b: nat, e: Rec): seq<DirPage>
    requires b < |file| && 0 < file[b].count < |file[b].slots| && |file[b].slots| >= 3
  {
    var first := file[b].slots[0].key;
    var file1 := SplitPages(file, b, 0);
    var root := WithSeparator(WithSeparator(file1[b], Rec(first, |file|, 0)), e);
    file1[b := root.(level := root.level + 1)]
  }

  // ---- searching ----

  /** The pages on the way down are ready, and their levels go down. */
  ghost predicate Path(file: seq<DirPage>, b: int, key: int)
    decreases if 0 <= b < |file| then file[b].level else 0
  {
    && 0 <= b < |file| && PageReady(file[b]) && file[b].slots[0].key <= key && file[b].level >= 0
    && (file[b].level > 0 ==>
          var c := FoundChild(file[b], key);
          0 <= c < |file| && file[c].level < file[b].level && Path(file, c, key))
  }

  ghost function SearchResult(file: seq<DirPage>, b: int, key: int): int
    requires Path(file, b, key)
    decreases file[b].level
  {
    var c := FoundChild(file[b], key);
    if file[b].level > 0 then SearchResult(file, c, key) else c
  }

  // ---- a full level-0 root ----

  /** The file after an entry has filled the level-0 root at block 0, which then gets a new level. */
  function Grown(p: DirPage): seq<DirPage>
    requires p.Fits() && p.count >= 2 && |p.slots| >= 3
  {
    var mid := p.count / 2;
    MakeNewRoot(SplitPages([p], 0, mid), 0, Rec(p.slots[mid].key, 1, 0))
  }

  /** An entry that fills the root makes it grow. */
  lemma {:induction false} EntryGrows(file: seq<DirPage>, b: nat, e: Rec, full: nat)
    requires b < |file| && file[b].count < |file[b].slots| && 3 <= full <= |file[b].slots|
    requires WithSeparator(file[b], e).count >= full
    ensures var p, res := WithSeparator(file[b], e), InsertEntry(file, b, e, full);
            p.Fits() && res.1.Some? && b < |res.0| && 0 < res.0[b].count < |res.0[b].slots| == |p.slots| &&
            (|file| == 1 ==>
               MakeNewRoot(res.0, b, Rec(res.1.value.key, res.1.value.block, 0)) == Grown(p))
  {
    var p, mid := WithSeparator(file[b], e), WithSeparator(file[b], e).count / 2;
    assert SplitPages(file[b := p], b, mid)[b] == Emptied(p, mid);
    if |file| == 1 {
      assert file[b := p] == [p];
    }
  }

  /** Neither of the two entries of a new root fills it. */
  lemma {:induction false} RootSteps(file: seq<DirPage>, b: nat, e: Rec, full: nat)
    requires b < |file| && 0 < file[b].count < |file[b].slots| && 3 <= full <= |file[b].slots|
    ensures var file1 := SplitPages(file, b, 0);
            var first := Rec(file[b].slots[0].key, |file|, 0);
            b < |file1| && file1[b].count == 0 && |file1[b].slots| == |file[b].slots| && file1[b].level == file[b].level &&
            var file2 := file1[b := WithSeparator(file1[b], first)];
            InsertEntry(file1, b, first, full) == (file2, None) &&
            file2[b].count == 1 && |file2[b].slots| == |file[b].slots| && file2[b].level == file[b].level &&
            var file3 := file2[b := WithSeparator(file2[b], e)];
            InsertEntry(file2, b, e, full) == (file3, None) && file3[b].level == file[b].level &&
            MakeNewRoot(file, b, e) == file3[b := file3[b].(level := file[b].level + 1)]
  {
    hide SlotBefore;
    assert SplitPages(file, b, 0)[b] == Emptied(file[b], 0);
  }

  lemma {:induction false} AtTheEnd(p: DirPage, e: Rec)
    requires p.count < |p.slots| && forall i :: 0 <= i < p.count ==> p.slots[i].key < e.key
    ensures WithSeparator(p, e) == DirPage(p.level, p.count + 1, p.slots[p.count := e])
  {
    SlotIs(p.Recs(), e.key, p.count - 1);
    assert InsertSlots(p.slots, p.count, p.count, e) == p.slots[p.count := e];
  }

  /** Emptying a page in two steps: first its upper half, then the rest. */
  lemma {:induction false} EmptiedTwice(p: DirPage, mid: nat)
    requires 3 <= p.count <= |p.slots| && mid == p.count / 2
    ensures var left := Emptied(p, mid);
            left.Fits() && left.count == mid && left.Recs() == p.Recs()[..mid] && |left.slots| == |p.slots| &&
            Emptied(left, 0).count == 0 && Emptied(left, 0).level == p.level &&
            |Emptied(left, 0).slots| == |p.slots| &&
            Emptied(left, 0).slots[2] == if mid > 2 then p.slots[mid - 1] else p.slots[p.count - 1]
  {
    var left := Emptied(p, mid);
    assert left.slots[mid - 1] == p.slots[mid - 1];
    assert mid <= 2 ==> left.slots[2] == p.slots[p.count - 1];
  }

  lemma {:induction false} NewRootIs(file: seq<DirPage>, b: nat, e: Rec)
    requires b < |file| && 0 < file[b].count <= |file[b].slots| && 3 <= |file[b].slots| && file[b].count < |file[b].slots|
    requires file[b].slots[0].key < e.key
    ensures var p, none := file[b], Emptied(file[b], 0);
            none.count == 0 && |none.slots| == |p.slots| &&
            MakeNewRoot(file, b, e) ==
            file[b := DirPage(none.level + 1, 2, none.slots[0 := Rec(p.slots[0].key, |file|, 0)][1 := e])] +
            [FreshPage(p.level, p.Recs()[0..], |p.slots|)]
  {
    var p, none := file[b], Emptied(file[b], 0);
    var first := Rec(p.slots[0].key, |file|, 0);
    AtTheEnd(none, first);
    AtTheEnd(WithSeparator(none, first), e);
    assert SplitPages(file, b, 0)[b] == none;
  }

  /** The new root has its two entries; what its third slot holds depends on the number of records. */
  lemma {:induction false} GrownRoot(p: DirPage)
    requires 3 <= p.count <= |p.slots| && Ascending(p.Recs())
    ensures var mid, file := p.count / 2, Grown(p);
            |file| == 3 && file[0].level == p.level + 1 && file[0].count == 2 && |file[0].slots| == |p.slots| &&
            file[0].slots[0] == Rec(p.slots[0].key, 2, 0) && file[0].slots[1] == Rec(p.slots[mid].key, 1, 0) &&
            file[0].slots[2] == (if mid > 2 then p.slots[mid - 1] else p.slots[p.count - 1])
    ensures Grown(p)[1] == FreshPage(p.level, p.Recs()[p.count / 2..], |p.slots|)
    ensures Grown(p)[2] == FreshPage(p.level, p.Recs()[..p.count / 2], |p.slots|)
  {
    var mid := p.count / 2;
    var e := Rec(p.slots[mid].key, 1, 0);
    SplitInTwo(p, mid);
    EmptiedTwice(p, mid);
    hide Emptied, FreshPage, MakeNewRoot, WithSeparator, Ascending, SplitPages;
    var file := SplitPages([p], 0, mid);
    NewRootIs(file, 0, e);
    assert file[0].Recs()[0..] == p.Recs()[..mid];
  }

  lemma {:induction false} SplitInTwo(p: DirPage, mid: nat)
    requires 0 < mid < p.count <= |p.slots| && Ascending(p.Recs())
    ensures SplitPages([p], 0, mid) == [Emptied(p, mid), FreshPage(p.level, p.Recs()[mid..], |p.slots|)]
    ensures Emptied(p, mid).slots[0] == p.slots[0] && p.slots[0].key < p.slots[mid].key
  {
    assert p.Recs()[0].key < p.Recs()[mid].key;
  }

  /** A root with two entries. */
  lemma {:induction false} TwoEntries(root: DirPage, key: int)
    requires root.count == 2 < |root.slots| && root.slots[0].key < root.slots[1].key && root.slots[0].key <= key
    ensures PageReady(root)
    ensures RightChild(root.Recs(), key) == root.slots[if key < root.slots[1].key then 0 else 1].block
    ensures FoundChild(root, key) == RightChild(root.Recs(), key) <==>
            !(root.slots[1].key < key == root.slots[2].key && root.slots[2].block != root.slots[1].block)
    ensures root.slots[1].key < key == root.slots[2].key ==> FoundChild(root, key) == root.slots[2].block
  {
    assert root.Recs() == [root.slots[0], root.slots[1]];
    RouteOfIs(root.Recs(), key, if key < root.slots[1].key then 0 else 1);
    RoutedIff(root, key);
  }

  /** The part of the separators that a key belongs to. */
  function HalfOf(recs: seq<Rec>, m: nat, key: int): seq<Rec>
    requires m < |recs|
  {
    if key < recs[m].key then recs[..m] else recs[m..]
  }

  lemma {:induction false} LowerRoutes(recs: seq<Rec>, mid: nat, key: int)
    requires Ascending(recs) && 0 < mid < |recs| && recs[0].key <= key < recs[mid].key
    ensures var half := recs[..mid];
            half[0].key <= key && Ascending(half) && RightChild(half, key) == RightChild(recs, key)
  {
    var i := RouteOf(recs, key);
    assert forall k :: mid <= k < |recs| ==> recs[mid].key <= recs[k].key;
    RouteOfIs(recs[..mid], key, i);
  }

  lemma {:induction false} UpperRoutes(recs: seq<Rec>, mid: nat, key: int)
    requires Ascending(recs) && 0 < mid < |recs| && recs[mid].key <= key && recs[0].key <= key
    ensures var half := recs[mid..];
            half[0].key <= key && Ascending(half) && RightChild(half, key) == RightChild(recs, key)
  {
    var i := RouteOf(recs, key);
    assert forall k :: 0 <= k <= mid ==> recs[k].key <= recs[mid].key;
    RouteOfIs(recs[mid..], key, i - mid);
  }

  lemma {:induction false} HalfRoutes(recs: seq<Rec>, m: nat, key: int)
    requires Ascending(recs) && 0 < m < |recs| && recs[0].key <= key
    ensures var half := HalfOf(recs, m, key);
            half != [] && half[0].key <= key && Ascending(half) && RightChild(half, key) == RightChild(recs, key)
  {
    if key < recs[m].key {
      LowerRoutes(recs, m, key);
    } else {
      UpperRoutes(recs, m, key);
    }
  }
}
