/** B-tree leaves as values: sorted pages under an ordered directory, with overflow chains for one repeated key. */
module LeafTree {
  import opened Storage

  /** An index record. A directory entry has the key and the block only. */
  datatype Rec = Rec(key: int, block: int, id: int)

  /** A page: the flag of a leaf is the block of its overflow chain, or -1. */
  datatype Leaf = Leaf(flag: int, recs: seq<Rec>)

  datatype Entry = Entry(key: int, block: nat)

  ghost predicate Sorted(recs: seq<Rec>) {
    forall i, j :: 0 <= i < j < |recs| ==> recs[i].key <= recs[j].key
  }

  // ---- directory entries ----

  /** Entries as records of a directory page. */
  function RecsOf(dir: seq<Entry>): (recs: seq<Rec>)
    ensures |recs| == |dir| && forall i :: 0 <= i < |dir| ==> recs[i] == Rec(dir[i].key, dir[i].block, 0)
  {
    seq(|dir|, i requires 0 <= i < |dir| => Rec(dir[i].key, dir[i].block, 0))
  }

  ghost predicate Ascending(recs: seq<Rec>) {
    forall i, j :: 0 <= i < j < |recs| ==> recs[i].key < recs[j].key
  }

  /** The last entry whose separator is not above the key. */
  function RouteOf(recs: seq<Rec>, key: int): (i: nat)
    requires recs != [] && recs[0].key <= key
    ensures i < |recs| && recs[i].key <= key && (i + 1 < |recs| ==> key < recs[i + 1].key)
  {
    if |recs| == 1 || key < recs[1].key then 0 else 1 + RouteOf(recs[1..], key)
  }

  lemma {:induction false} RouteOfIs(recs: seq<Rec>, key: int, i: nat)
    requires Ascending(recs) && recs != [] && recs[0].key <= key
    requires i < |recs| && recs[i].key <= key && (i + 1 < |recs| ==> key < recs[i + 1].key)
    ensures RouteOf(recs, key) == i
  {
    var j := RouteOf(recs, key);
    assert forall k :: i < k < |recs| ==> recs[i + 1].key <= recs[k].key;
    assert forall k :: j < k < |recs| ==> recs[j + 1].key <= recs[k].key;
  }

  // ---- one page ----

  /** The slot before the first key that is not below `key`. */
  function SlotBefore(recs: seq<Rec>, key: int): (s: int)
    ensures -1 <= s < |recs|
    ensures forall i :: 0 <= i <= s ==> recs[i].key < key
    ensures s + 1 < |recs| ==> recs[s + 1].key >= key
  {
    if recs == [] || recs[0].key >= key then -1 else 1 + SlotBefore(recs[1..], key)
  }

  /** That slot is the only one between the smaller keys and the others. */
  lemma {:induction false} SlotIs(recs: seq<Rec>, key: int, s: int)
    requires -1 <= s < |recs| && forall i :: 0 <= i <= s ==> recs[i].key < key
    requires s + 1 < |recs| ==> recs[s + 1].key >= key
    ensures SlotBefore(recs, key) == s
  {
    var k := SlotBefore(recs, key);
    assert k + 1 < |recs| ==> recs[k + 1].key >= key;
    assert s + 1 < |recs| ==> recs[s + 1].key >= key;
  }

  function InsertAt(recs: seq<Rec>, i: nat, r: Rec): seq<Rec>
    requires i <= |recs|
  {
    recs[..i] + [r] + recs[i..]
  }

  function DeleteAt(recs: seq<Rec>, i: nat): seq<Rec>
    requires i < |recs|
  {
    recs[..i] + recs[i + 1..]
  }

  function Added(recs: seq<Rec>, r: Rec): (all: seq<Rec>)
    ensures |all| == |recs| + 1
  {
    InsertAt(recs, SlotBefore(recs, r.key) + 1, r)
  }

  lemma {:induction false} AddedSorted(recs: seq<Rec>, r: Rec)
    requires Sorted(recs)
    ensures Sorted(Added(recs, r))
  {
    var i := SlotBefore(recs, r.key) + 1;
    var all := Added(recs, r);
    assert forall j :: 0 <= j < |all| ==> all[j] == if j < i then recs[j] else if j == i then r else recs[j - 1];
    assert forall j :: i <= j < |recs| ==> r.key <= recs[j].key;
  }

  lemma {:induction false} AddedLast(recs: seq<Rec>, r: Rec)
    requires forall i :: 0 <= i < |recs| ==> recs[i].key < r.key
    ensures Added(recs, r) == recs + [r]
  {
    SlotIs(recs, r.key, |recs| - 1);
  }

  lemma {:induction false} AddedRecs(recs: seq<Rec>, r: Rec)
    ensures multiset(Added(recs, r)) == multiset(recs) + multiset{r}
    ensures |Added(recs, r)| == |recs| + 1
  {
    var i := SlotBefore(recs, r.key) + 1;
    assert recs == recs[..i] + recs[i..];
  }

  lemma {:induction false} AddedAmong(recs: seq<Rec>, r: Rec)
    ensures forall x :: x in Added(recs, r) ==> x in recs || x == r
    ensures recs != [] && recs[0].key <= r.key ==> Added(recs, r)[0].key == recs[0].key
  {
    var i := SlotBefore(recs, r.key) + 1;
    if recs != [] && recs[0].key <= r.key && i == 0 {
      assert Added(recs, r)[0] == r;
    }
  }

  /** Where a full page with two different keys is split: between two keys. From the middle record's key the
      split goes to its first record, or past its last one when the page starts with it. */
  function SplitPos(recs: seq<Rec>): (p: nat)
    requires |recs| >= 2
    ensures p <= |recs|
  {
    var k := recs[|recs| / 2].key;
    SlotBefore(recs, if k == recs[0].key then k + 1 else k) + 1
  }

  /** No key is on both sides of the position. */
  ghost predicate Between(recs: seq<Rec>, p: nat)
    requires p < |recs|
  {
    forall i, j :: 0 <= i < p <= j < |recs| ==> recs[i].key < recs[p].key <= recs[j].key
  }

  lemma {:induction false} SplitBetweenKeys(recs: seq<Rec>)
    requires Sorted(recs) && |recs| >= 2 && recs[0].key != recs[|recs| - 1].key
    ensures 0 < SplitPos(recs) < |recs| && Between(recs, SplitPos(recs))
  {
    var p, k := SplitPos(recs), recs[|recs| / 2].key;
    assert recs[0].key <= k <= recs[|recs| - 1].key;
    var last := recs[|recs| - 1].key;
    assert forall i :: 0 <= i < p ==> recs[i].key < if k == recs[0].key then k + 1 else k;
    assert (if k == recs[0].key then k + 1 else k) <= last;
  }

  // ---- overflow chains ----

  /** The records of a chain; each block of a chain was made after the blocks behind it. */
  function Chain(file: seq<Leaf>, f: int): seq<Rec>
    decreases f
  {
    if 0 <= f < |file| then file[f].recs + (if file[f].flag < f then Chain(file, file[f].flag) else []) else []
  }

  ghost predicate ChainOk(file: seq<Leaf>, f: int, key: int)
    decreases f
  {
    0 <= f ==>
      f < |file| && file[f].recs != [] && (forall r :: r in file[f].recs ==> r.key == key)
      && file[f].flag < f && ChainOk(file, file[f].flag, key)
  }

  ghost predicate InChain(file: seq<Leaf>, f: int, b: int)
    decreases f
  {
    0 <= f < |file| && (f == b || (file[f].flag < f && InChain(file, file[f].flag, b)))
  }

  /** A chain does not see changes of blocks outside it. */
  lemma {:induction false} ChainFrame(file: seq<Leaf>, file': seq<Leaf>, f: int, b: int, key: int)
    requires ChainOk(file, f, key) && !InChain(file, f, b)
    requires |file| <= |file'| && forall i :: 0 <= i < |file| && i != b ==> file'[i] == file[i]
    ensures ChainOk(file', f, key) && Chain(file', f) == Chain(file, f)
    ensures forall c: int :: InChain(file', f, c) == InChain(file, f, c)
    decreases f
  {
    if 0 <= f {
      ChainFrame(file, file', file[f].flag, b, key);
    }
  }

  lemma {:induction false} ChainKeys(file: seq<Leaf>, f: int, key: int)
    requires ChainOk(file, f, key)
    ensures forall r :: r in Chain(file, f) ==> r.key == key
    decreases f
  {
    if 0 <= f {
      ChainKeys(file, file[f].flag, key);
    }
  }

  lemma {:induction false} ChainBlocks(file: seq<Leaf>, f: int, b: int)
    ensures InChain(file, f, b) ==> 0 <= b <= f && b < |file|
    decreases f
  {
    if 0 <= f < |file| && file[f].flag < f {
      ChainBlocks(file, file[f].flag, b);
    }
  }

  // ---- one leaf: its page and its chain ----

  /** Everything under the leaf, its own page first. */
  function LeafRecs(file: seq<Leaf>, b: nat): seq<Rec>
    requires b < |file|
  {
    file[b].recs + Chain(file, file[b].flag)
  }

  /** What the iterator finds: the page's records with the key, then the chain if it belongs to that key. */
  function Found(file: seq<Leaf>, b: nat, key: int): seq<Rec>
    requires b < |file|
  {
    WithKey(file[b].recs, key) + ChainFor(file, b, key)
  }

  /** The chain, if it belongs to the key. */
  function ChainFor(file: seq<Leaf>, b: nat, key: int): seq<Rec>
    requires b < |file|
  {
    if file[b].recs != [] && file[b].recs[0].key == key then Chain(file, file[b].flag) else []
  }

  function WithKey(recs: seq<Rec>, key: int): seq<Rec> {
    if recs == [] then [] else (if recs[0].key == key then [recs[0]] else []) + WithKey(recs[1..], key)
  }

  lemma {:induction false} WithKeyCounts(recs: seq<Rec>, key: int, r: Rec)
    ensures multiset(WithKey(recs, key))[r] == if r.key == key then multiset(recs)[r] else 0
  {
    if recs != [] {
      WithKeyCounts(recs[1..], key, r);
      assert recs == [recs[0]] + recs[1..];
    }
  }

  /** A page for the keys from `lo` up to `hi`, where a missing `hi` means no limit. */
  ghost predicate PageOk(recs: seq<Rec>, lo: int, hi: Option<int>, full: nat) {
    Sorted(recs) && |recs| < full && forall r :: r in recs ==> lo <= r.key && Below(r.key, hi)
  }

  /** A chain belongs to the page's first key. */
  ghost predicate HeadOk(file: seq<Leaf>, flag: int, recs: seq<Rec>) {
    flag >= 0 ==> recs != [] && ChainOk(file, flag, recs[0].key)
  }

  ghost predicate LeafOk(file: seq<Leaf>, b: nat, lo: int, hi: Option<int>, full: nat) {
    b < |file| && PageOk(file[b].recs, lo, hi, full) && HeadOk(file, file[b].flag, file[b].recs)
  }

  predicate Below(key: int, hi: Option<int>) {
    hi.Some? ==> key < hi.value
  }

  lemma {:induction false} FoundCounts(file: seq<Leaf>, b: nat, lo: int, hi: Option<int>, full: nat, key: int, r: Rec)
    requires LeafOk(file, b, lo, hi, full)
    ensures multiset(Found(file, b, key))[r] == if r.key == key then multiset(LeafRecs(file, b))[r] else 0
  {
    var page := file[b];
    WithKeyCounts(page.recs, key, r);
    if page.flag >= 0 {
      ChainKeys(file, page.flag, page.recs[0].key);
      assert r in multiset(Chain(file, page.flag)) ==> r in Chain(file, page.flag);
    }
  }

  // ---- inserting into one leaf ----

  /** A full page: it hangs all but one record in its chain if they have one key, or is split between two keys. */
  function SplitLeaf(file: seq<Leaf>, b: nat): (res: (seq<Leaf>, Option<Entry>))
    requires b < |file| && Sorted(file[b].recs) && |file[b].recs| >= 2
  {
    var page := file[b];
    var recs := page.recs;
    if recs[0].key == recs[|recs| - 1].key then
      (file[b := Leaf(|file|, recs[..1])] + [Leaf(page.flag, recs[1..])], None)
    else
      SplitBetweenKeys(recs);
      var p := SplitPos(recs);
      (file[b := Leaf(page.flag, recs[..p])] + [Leaf(-1, recs[p..])], Some(Entry(recs[p].key, |file|)))
  }

  /** In the first case the new key comes before a chain's key: the page moves to a new block, chain and all. */
  function LeafInsert(file: seq<Leaf>, b: nat, r: Rec, full: nat): (res: (seq<Leaf>, Option<Entry>))
    requires b < |file| && full >= 2 && Sorted(file[b].recs)
  {
    var page := file[b];
    if page.flag >= 0 && page.recs != [] && page.recs[0].key > r.key then
      (file[b := Leaf(-1, [r])] + [page], Some(Entry(page.recs[0].key, |file|)))
    else
      var recs := Added(page.recs, r);
      var file' := file[b := Leaf(page.flag, recs)];
      if |recs| < full then (file', None)
      else
        AddedSorted(page.recs, r);
        SplitLeaf(file', b)
  }

  lemma Overwrite<T>(s: seq<T>, more: seq<T>, i: nat, x: T, y: T)
    requires i < |s|
    ensures s[i := x][i := y] == s[i := y]
    ensures (s[i := x] + more)[i := y] == s[i := y] + more
  {
  }

  /** What one leaf insertion does: the keys of the leaf stay between its bounds, now perhaps in two leaves. */
  ghost predicate LeafInserted(file: seq<Leaf>, b: nat, lo: int, hi: Option<int>, r: Rec, full: nat,
                               file': seq<Leaf>, e: Option<Entry>)
    requires b < |file|
  {
    && |file| <= |file'| <= |file| + 1
    && (forall i :: 0 <= i < |file| && i != b ==> file'[i] == file[i])
    && match e
       case None =>
         LeafOk(file', b, lo, hi, full) &&
         multiset(LeafRecs(file', b)) == multiset(LeafRecs(file, b)) + multiset{r} &&
         (forall c: int :: InChain(file', file'[b].flag, c) ==> c == |file| || InChain(file, file[b].flag, c))
       case Some(entry) =>
         entry.block == |file| && |file'| == |file| + 1 && lo < entry.key && Below(entry.key, hi) &&
         LeafOk(file', b, lo, Some(entry.key), full) && LeafOk(file', |file|, entry.key, hi, full) &&
         multiset(LeafRecs(file', b)) + multiset(LeafRecs(file', |file|)) ==
         multiset(LeafRecs(file, b)) + multiset{r} &&
         (forall c: int :: InChain(file', file'[b].flag, c) ==> InChain(file, file[b].flag, c)) &&
         (forall c: int :: InChain(file', file'[|file|].flag, c) ==> InChain(file, file[b].flag, c))
  }

  lemma {:induction false} LeafInsertOk(file: seq<Leaf>, b: nat, lo: int, hi: Option<int>, r: Rec, full: nat)
    requires full >= 2 && LeafOk(file, b, lo, hi, full) && !InChain(file, file[b].flag, b)
    requires lo <= r.key && Below(r.key, hi)
    ensures var res := LeafInsert(file, b, r, full);
            LeafInserted(file, b, lo, hi, r, full, res.0, res.1)
  {
    var page, res := file[b], LeafInsert(file, b, r, full);
    var file' := res.0;
    if page.flag >= 0 && page.recs[0].key > r.key {
      hide LeafInserted;
      MovedOut(file, file', b, lo, hi, r, full);
    } else {
      AddedHolds(page, lo, hi, r, full);
      AddedSorted(page.recs, r);
      KeptOrSplit(file, b, lo, hi, r, full, Added(page.recs, r));
    }
  }

  lemma {:induction false} KeptOrSplit(file: seq<Leaf>, b: nat, lo: int, hi: Option<int>, r: Rec, full: nat,
                                       recs: seq<Rec>)
    requires full >= 2 && b < |file| && LeafOk(file, b, lo, hi, full) && !InChain(file, file[b].flag, b)
    requires lo <= r.key && Below(r.key, hi) && Holds(file[b], recs, lo, hi, r) && Sorted(recs)
    ensures var file' := file[b := Leaf(file[b].flag, recs)];
            if |recs| < full then LeafInserted(file, b, lo, hi, r, full, file', None)
            else LeafInserted(file, b, lo, hi, r, full, SplitLeaf(file', b).0, SplitLeaf(file', b).1)
  {
    hide LeafInserted, Holds, LeafOk;
    var page := file[b];
    var file' := file[b := Leaf(page.flag, recs)];
    if |recs| < full {
      Stays(file, file', b, lo, hi, r, full, recs);
    } else if recs[0].key == recs[|recs| - 1].key {
      Overwrite(file, [], b, Leaf(page.flag, recs), Leaf(|file|, recs[..1]));
      Hangs(file, SplitLeaf(file', b).0, b, lo, hi, r, full, recs);
    } else {
      SplitBetweenKeys(recs);
      Overwrite(file, [], b, Leaf(page.flag, recs), Leaf(page.flag, recs[..SplitPos(recs)]));
      Splits(file, SplitLeaf(file', b).0, b, lo, hi, r, full, recs, SplitPos(recs));
    }
  }

  lemma {:induction false} MovedOut(file: seq<Leaf>, file': seq<Leaf>, b: nat, lo: int, hi: Option<int>, r: Rec, full: nat)
    requires full >= 2 && LeafOk(file, b, lo, hi, full) && !InChain(file, file[b].flag, b)
    requires file[b].flag >= 0 && r.key < file[b].recs[0].key && lo <= r.key
    requires file' == file[b := Leaf(-1, [r])] + [file[b]]
    ensures LeafInserted(file, b, lo, hi, r, full, file', Some(Entry(file[b].recs[0].key, |file|)))
  {
    var page := file[b];
    var key := page.recs[0].key;
    ChainKept(file, file', b);
    assert file'[|file|] == page && file'[b] == Leaf(-1, [r]) && page.recs[0] in page.recs;
    assert LeafOk(file', b, lo, Some(key), full);
    assert LeafOk(file', |file|, key, hi, full);
    assert forall c: int :: !InChain(file', file'[b].flag, c);
    assert LeafRecs(file', b) == [r];
    assert LeafRecs(file', |file|) == LeafRecs(file, b);
    hide LeafOk, PageOk, Sorted, HeadOk, ChainOk, InChain, Chain, LeafRecs;
  }

  /** The leaf's chain is as before when only its page and new blocks change. */
  lemma {:induction false} ChainKept(file: seq<Leaf>, file': seq<Leaf>, b: nat)
    requires b < |file| && HeadOk(file, file[b].flag, file[b].recs) && !InChain(file, file[b].flag, b)
    requires |file| <= |file'| && forall i :: 0 <= i < |file| && i != b ==> file'[i] == file[i]
    ensures HeadOk(file', file[b].flag, file[b].recs) && Chain(file', file[b].flag) == Chain(file, file[b].flag)
    ensures forall c: int :: InChain(file', file[b].flag, c) == InChain(file, file[b].flag, c)
    ensures file[b].flag < |file|
  {
    if file[b].flag >= 0 {
      ChainFrame(file, file', file[b].flag, b, file[b].recs[0].key);
    }
  }

  /** The page after the new record is in: still between its bounds, and the chain still fits its first key. */
  ghost predicate Holds(page: Leaf, recs: seq<Rec>, lo: int, hi: Option<int>, r: Rec) {
    && Sorted(recs) && |recs| == |page.recs| + 1 && multiset(recs) == multiset(page.recs) + multiset{r}
    && (forall x :: x in recs ==> lo <= x.key && Below(x.key, hi))
    && (page.flag >= 0 ==> page.recs != [] && recs[0].key == page.recs[0].key)
  }

  lemma {:induction false} AddedHolds(page: Leaf, lo: int, hi: Option<int>, r: Rec, full: nat)
    requires PageOk(page.recs, lo, hi, full) && lo <= r.key && Below(r.key, hi)
    requires page.flag >= 0 ==> page.recs != [] && page.recs[0].key <= r.key
    ensures Holds(page, Added(page.recs, r), lo, hi, r)
  {
    AddedSorted(page.recs, r);
    AddedRecs(page.recs, r);
    AddedAmong(page.recs, r);
  }

  lemma {:induction false} Stays(file: seq<Leaf>, file': seq<Leaf>, b: nat, lo: int, hi: Option<int>, r: Rec, full: nat,
                                 recs: seq<Rec>)
    requires LeafOk(file, b, lo, hi, full) && !InChain(file, file[b].flag, b)
    requires Holds(file[b], recs, lo, hi, r) && |recs| < full
    requires file' == file[b := Leaf(file[b].flag, recs)]
    ensures LeafInserted(file, b, lo, hi, r, full, file', None)
  {
    hide Sorted, InChain, ChainOk, Chain;
    ChainKept(file, file', b);
    ChainKey(file', file[b], recs);
  }

  lemma {:induction false} ChainKey(file: seq<Leaf>, page: Leaf, recs: seq<Rec>)
    requires HeadOk(file, page.flag, page.recs) && recs != []
    requires page.flag >= 0 ==> page.recs != [] && recs[0].key == page.recs[0].key
    ensures HeadOk(file, page.flag, recs)
  {
  }

  /** The records of a page whose keys are all the same. */
  lemma {:induction false} OneKey(recs: seq<Rec>)
    requires Sorted(recs) && |recs| >= 2 && recs[0].key == recs[|recs| - 1].key
    ensures forall x :: x in recs[1..] ==> x.key == recs[0].key
    ensures recs == recs[..1] + recs[1..] && recs[1..] != [] && recs[..1] == [recs[0]]
  {
  }

  lemma {:induction false} Hangs(file: seq<Leaf>, file': seq<Leaf>, b: nat, lo: int, hi: Option<int>, r: Rec, full: nat,
                                 recs: seq<Rec>)
    requires LeafOk(file, b, lo, hi, full) && !InChain(file, file[b].flag, b)
    requires Holds(file[b], recs, lo, hi, r) && full >= 2 && |recs| >= 2 && recs[0].key == recs[|recs| - 1].key
    requires file' == file[b := Leaf(|file|, recs[..1])] + [Leaf(file[b].flag, recs[1..])]
    ensures LeafInserted(file, b, lo, hi, r, full, file', None)
  {
    var page, n, key := file[b], |file|, recs[0].key;
    OneKey(recs);
    ChainKept(file, file', b);
    assert file'[n] == Leaf(page.flag, recs[1..]) && file'[b] == Leaf(n, recs[..1]);
    ChainKey(file', page, recs);
    assert ChainOk(file', page.flag, key);
    assert ChainOk(file', n, key);
    assert Chain(file', n) == recs[1..] + Chain(file, page.flag);
    HangsChain(file, file', b, page.flag);
    assert recs[0] in recs;
    assert LeafOk(file', b, lo, hi, full);
    Parts(recs, 1, Chain(file, page.flag));
    assert LeafRecs(file', b) == recs[..1] + (recs[1..] + Chain(file, page.flag));
  }

  lemma {:induction false} HangsChain(file: seq<Leaf>, file': seq<Leaf>, b: nat, f: int)
    requires |file'| == |file| + 1 && file'[|file|].flag == f < |file|
    requires forall c: int :: InChain(file', f, c) == InChain(file, f, c)
    ensures forall c: int :: InChain(file', |file|, c) ==> c == |file| || InChain(file, f, c)
  {
  }

  /** Both halves of a split page. */
  lemma {:induction false} Halves(recs: seq<Rec>, lo: int, hi: Option<int>, full: nat, p: nat)
    requires Sorted(recs) && |recs| <= full && 0 < p < |recs| && Between(recs, p)
    requires forall x :: x in recs ==> lo <= x.key && Below(x.key, hi)
    ensures PageOk(recs[..p], lo, Some(recs[p].key), full) && PageOk(recs[p..], recs[p].key, hi, full)
    ensures lo < recs[p].key && Below(recs[p].key, hi)
    ensures recs[..p] != [] && recs[..p][0] == recs[0]
  {
    assert recs[0] in recs && recs[p] in recs;
    LeftHalf(recs, p);
    RightHalf(recs, p);
  }

  lemma {:induction false} LeftHalf(recs: seq<Rec>, p: nat)
    requires Sorted(recs) && 0 < p < |recs| && Between(recs, p)
    ensures Sorted(recs[..p])
    ensures forall x :: x in recs[..p] ==> x in recs && x.key < recs[p].key
  {
  }

  lemma {:induction false} RightHalf(recs: seq<Rec>, p: nat)
    requires Sorted(recs) && 0 < p < |recs| && Between(recs, p)
    ensures Sorted(recs[p..])
    ensures forall x :: x in recs[p..] ==> x in recs && x.key >= recs[p].key
  {
  }

  /** A page split in two: the left half keeps the chain. */
  lemma {:induction false} SplitShape(file: seq<Leaf>, file': seq<Leaf>, b: nat, lo: int, hi: Option<int>, full: nat,
                                      left: seq<Rec>, right: seq<Rec>, mid: int)
    requires LeafOk(file, b, lo, hi, full) && !InChain(file, file[b].flag, b)
    requires PageOk(left, lo, Some(mid), full) && PageOk(right, mid, hi, full) && left != []
    requires file[b].flag >= 0 ==> left[0].key == file[b].recs[0].key
    requires file' == file[b := Leaf(file[b].flag, left)] + [Leaf(-1, right)]
    ensures LeafOk(file', b, lo, Some(mid), full) && LeafOk(file', |file|, mid, hi, full)
    ensures LeafRecs(file', b) == left + Chain(file, file[b].flag) && LeafRecs(file', |file|) == right
    ensures forall c: int :: InChain(file', file'[b].flag, c) == InChain(file, file[b].flag, c)
    ensures forall c: int :: !InChain(file', file'[|file|].flag, c)
  {
    ChainKept(file, file', b);
    assert file'[|file|] == Leaf(-1, right) && file'[b] == Leaf(file[b].flag, left);
    ChainKey(file', file[b], left);
    assert Chain(file', -1) == [];
  }

  lemma {:induction false} Splits(file: seq<Leaf>, file': seq<Leaf>, b: nat, lo: int, hi: Option<int>, r: Rec, full: nat,
                                  recs: seq<Rec>, p: nat)
    requires LeafOk(file, b, lo, hi, full) && !InChain(file, file[b].flag, b)
    requires Holds(file[b], recs, lo, hi, r) && 0 < p < |recs| && Between(recs, p)
    requires file' == file[b := Leaf(file[b].flag, recs[..p])] + [Leaf(-1, recs[p..])]
    ensures LeafInserted(file, b, lo, hi, r, full, file', Some(Entry(recs[p].key, |file|)))
  {
    var left, right := recs[..p], recs[p..];
    Halves(recs, lo, hi, full, p);
    SplitShape(file, file', b, lo, hi, full, left, right, recs[p].key);
    SplitSum(file[b].recs, recs, p, Chain(file, file[b].flag), r);
  }

  lemma {:induction false} SplitSum(was: seq<Rec>, recs: seq<Rec>, p: nat, rest: seq<Rec>, r: Rec)
    requires p <= |recs| && multiset(recs) == multiset(was) + multiset{r}
    ensures multiset(recs[..p] + rest) + multiset(recs[p..]) == multiset(was + rest) + multiset{r}
  {
    Parts(recs, p, rest);
    assert multiset(was + rest) == multiset(was) + multiset(rest);
  }

  lemma {:induction false} Parts(recs: seq<Rec>, p: nat, rest: seq<Rec>)
    requires p <= |recs|
    ensures multiset(recs[..p] + (recs[p..] + rest)) == multiset(recs) + multiset(rest)
    ensures multiset(recs[..p] + rest) + multiset(recs[p..]) == multiset(recs) + multiset(rest)
  {
    assert recs == recs[..p] + recs[p..];
  }

  // ---- reading a leaf ----

  /** The records with the key from a slot on, up to the first other key. */
  function Run(recs: seq<Rec>, from: nat, key: int): seq<Rec>
    decreases |recs| - from
  {
    if from < |recs| && recs[from].key == key then [recs[from]] + Run(recs, from + 1, key) else []
  }

  /** What an iterator at a slot has still to yield. */
  function Rest(file: seq<Leaf>, b: nat, slot: int, key: int): seq<Rec>
    requires b < |file| && -1 <= slot
  {
    Run(file[b].recs, slot + 1, key) + ChainFor(file, b, key)
  }

  lemma {:induction false} RestStep(file: seq<Leaf>, b: nat, slot: nat, key: int)
    requires b < |file|
    ensures if slot < |file[b].recs| && file[b].recs[slot].key == key then
              Rest(file, b, slot - 1, key) != [] && Rest(file, b, slot - 1, key)[0] == file[b].recs[slot] &&
              Rest(file, b, slot, key) == Rest(file, b, slot - 1, key)[1..]
            else Rest(file, b, slot - 1, key) == ChainFor(file, b, key)
  {
    if slot < |file[b].recs| && file[b].recs[slot].key == key {
      Tail([file[b].recs[slot]] + Run(file[b].recs, slot + 1, key), ChainFor(file, b, key));
    }
  }

  /** At the first record of a chain, the rest of the chain is ahead. */
  lemma {:induction false} ChainStep(file: seq<Leaf>, f: int, key: int)
    requires 0 <= f && ChainOk(file, f, key)
    ensures f < |file| && file[f].recs != [] && HeadOk(file, file[f].flag, file[f].recs)
    ensures Chain(file, f) != [] && file[f].recs[0] == Chain(file, f)[0]
    ensures Rest(file, f, 0, key) == Chain(file, f)[1..]
  {
    var recs := file[f].recs;
    assert recs[0] in recs;
    RunToEnd(recs, 1, key);
    Tail(recs, Chain(file, file[f].flag));
  }

  lemma Tail(a: seq<Rec>, b: seq<Rec>)
    requires a != []
    ensures (a + b)[0] == a[0] && (a + b)[1..] == a[1..] + b
  {
  }

  lemma {:induction false} RunToEnd(recs: seq<Rec>, from: nat, key: int)
    requires from <= |recs| && forall r :: r in recs ==> r.key == key
    ensures Run(recs, from, key) == recs[from..]
    decreases |recs| - from
  {
    if from < |recs| {
      RunToEnd(recs, from + 1, key);
    }
  }

  /** In a sorted page the records with one key are next to each other. */
  lemma {:induction false} RunIsAll(recs: seq<Rec>, key: int)
    requires Sorted(recs)
    ensures Run(recs, SlotBefore(recs, key) + 1, key) == WithKey(recs, key)
  {
    if recs == [] {
    } else if recs[0].key < key {
      RunIsAll(recs[1..], key);
      RunShift(recs, SlotBefore(recs[1..], key) + 1, key);
    } else {
      RunFromFront(recs, key);
    }
  }

  lemma {:induction false} RunShift(recs: seq<Rec>, from: nat, key: int)
    requires recs != []
    ensures Run(recs, from + 1, key) == Run(recs[1..], from, key)
    decreases |recs| - from
  {
    if from + 1 < |recs| {
      RunShift(recs, from + 1, key);
    }
  }

  lemma {:induction false} RunFromFront(recs: seq<Rec>, key: int)
    requires Sorted(recs) && (recs != [] ==> recs[0].key >= key)
    ensures Run(recs, 0, key) == WithKey(recs, key)
  {
    if recs != [] {
      if recs[0].key == key {
        RunFromFront(recs[1..], key);
        RunShift(recs, 0, key);
      } else {
        NoneWithKey(recs, key);
      }
    }
  }

  lemma {:induction false} NoneWithKey(recs: seq<Rec>, key: int)
    requires forall r :: r in recs ==> r.key != key
    ensures WithKey(recs, key) == []
  {
    if recs != [] {
      NoneWithKey(recs[1..], key);
    }
  }

  /** From before the key, the iterator has everything to yield that is found under the key. */
  lemma {:induction false} RestIsFound(file: seq<Leaf>, b: nat, key: int)
    requires b < |file| && Sorted(file[b].recs)
    ensures Rest(file, b, SlotBefore(file[b].recs, key), key) == Found(file, b, key)
  {
    RunIsAll(file[b].recs, key);
  }

  // ---- deleting from one leaf ----

  function FirstIndex(recs: seq<Rec>, r: Rec): (i: nat)
    ensures i <= |recs| && (i < |recs| ==> recs[i] == r) && forall j :: 0 <= j < i ==> recs[j] != r
  {
    if recs == [] || recs[0] == r then 0 else 1 + FirstIndex(recs[1..], r)
  }

  lemma {:induction false} FirstIndexIs(recs: seq<Rec>, r: Rec, i: nat)
    requires i <= |recs| && (i < |recs| ==> recs[i] == r) && forall j :: 0 <= j < i ==> recs[j] != r
    ensures FirstIndex(recs, r) == i
  {
  }

  function LeafDelete(file: seq<Leaf>, b: nat, r: Rec): seq<Leaf>
    requires b < |file|
  {
    var i := FirstIndex(file[b].recs, r);
    if i < |file[b].recs| then file[b := Leaf(file[b].flag, DeleteAt(file[b].recs, i))] else file
  }

  lemma {:induction false} DeletedRecs(recs: seq<Rec>, i: nat)
    requires i < |recs|
    ensures multiset(DeleteAt(recs, i)) == multiset(recs) - multiset{recs[i]}
    ensures forall x :: x in DeleteAt(recs, i) ==> x in recs
  {
    assert recs == recs[..i] + [recs[i]] + recs[i + 1..];
  }

  lemma {:induction false} DeletedSorted(recs: seq<Rec>, i: nat)
    requires i < |recs| && Sorted(recs)
    ensures Sorted(DeleteAt(recs, i)) && (i > 0 ==> DeleteAt(recs, i)[0] == recs[0])
  {
    var all := DeleteAt(recs, i);
    assert forall j :: 0 <= j < |all| ==> all[j] == recs[if j < i then j else j + 1];
  }

  /** Deleting a record of a key without a chain keeps the leaf and removes exactly that record. */
  lemma {:induction false} LeafDeleteOk(file: seq<Leaf>, b: nat, lo: int, hi: Option<int>, r: Rec, full: nat)
    requires LeafOk(file, b, lo, hi, full) && !InChain(file, file[b].flag, b)
    requires file[b].flag >= 0 ==> file[b].recs[0].key != r.key
    ensures var file' := LeafDelete(file, b, r);
            LeafOk(file', b, lo, hi, full) &&
            multiset(LeafRecs(file', b)) == multiset(LeafRecs(file, b)) - multiset{r} &&
            forall c: int :: InChain(file', file'[b].flag, c) == InChain(file, file[b].flag, c)
  {
    var page, i := file[b], FirstIndex(file[b].recs, r);
    if page.flag >= 0 {
      ChainKeys(file, page.flag, page.recs[0].key);
    }
    assert r !in Chain(file, page.flag);
    if i < |page.recs| {
      DeletedPage(page.recs, lo, hi, full, i);
      hide PageOk, InChain, ChainOk, Chain, HeadOk;
      DeletedLeaf(file, LeafDelete(file, b, r), b, DeleteAt(page.recs, i));
      DeletedSum(page.recs, i, Chain(file, page.flag));
    } else {
      assert r !in LeafRecs(file, b);
    }
  }

  lemma {:induction false} DeletedPage(recs: seq<Rec>, lo: int, hi: Option<int>, full: nat, i: nat)
    requires PageOk(recs, lo, hi, full) && i < |recs|
    ensures PageOk(DeleteAt(recs, i), lo, hi, full) && (i > 0 ==> DeleteAt(recs, i)[0] == recs[0])
  {
    DeletedRecs(recs, i);
    DeletedSorted(recs, i);
  }

  lemma {:induction false} DeletedLeaf(file: seq<Leaf>, file': seq<Leaf>, b: nat, recs: seq<Rec>)
    requires b < |file| && HeadOk(file, file[b].flag, file[b].recs) && !InChain(file, file[b].flag, b)
    requires file' == file[b := Leaf(file[b].flag, recs)]
    requires file[b].flag >= 0 ==> recs != [] && recs[0] == file[b].recs[0]
    ensures HeadOk(file', file[b].flag, recs) && LeafRecs(file', b) == recs + Chain(file, file[b].flag)
    ensures forall c: int :: InChain(file', file[b].flag, c) == InChain(file, file[b].flag, c)
  {
    ChainKept(file, file', b);
  }

  lemma {:induction false} DeletedSum(recs: seq<Rec>, i: nat, rest: seq<Rec>)
    requires i < |recs|
    ensures multiset(DeleteAt(recs, i) + rest) == multiset(recs + rest) - multiset{recs[i]}
  {
    DeletedRecs(recs, i);
    assert multiset(recs + rest) == multiset(recs) + multiset(rest);
  }
}
