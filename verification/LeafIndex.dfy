/** All the leaves under an ordered directory, as a multimap from keys to record identifiers. */
module LeafIndex {
  import opened Storage
  import opened LeafTree

  /** The directory maps each separator to the leaf for the keys from it up to the next separator. */
  datatype Tree = Tree(file: seq<Leaf>, dir: seq<Entry>)

  ghost predicate DirOk(dir: seq<Entry>) {
    dir != [] && forall i, j :: 0 <= i < j < |dir| ==> dir[i].key < dir[j].key
  }

  /** The entry with the greatest separator that is not above the key. */
  function Route(dir: seq<Entry>, key: int): (i: nat)
    requires dir != [] && dir[0].key <= key
    ensures i < |dir| && dir[i].key <= key && (i + 1 < |dir| ==> key < dir[i + 1].key)
  {
    RouteOf(RecsOf(dir), key)
  }

  function Next(dir: seq<Entry>, i: nat): Option<int> {
    if i + 1 < |dir| then Some(dir[i + 1].key) else None
  }

  ghost predicate LeavesOk(t: Tree, full: nat) {
    forall i :: 0 <= i < |t.dir| ==> LeafOk(t.file, t.dir[i].block, t.dir[i].key, Next(t.dir, i), full)
  }

  ghost predicate BlocksIn(t: Tree) {
    forall i :: 0 <= i < |t.dir| ==> t.dir[i].block < |t.file|
  }

  /** A leaf's own page is in no chain. */
  ghost predicate Apart(t: Tree)
    requires BlocksIn(t)
  {
    && (forall i, j :: 0 <= i < j < |t.dir| ==> t.dir[i].block != t.dir[j].block)
    && (forall i, j :: 0 <= i < |t.dir| && 0 <= j < |t.dir| ==>
          !InChain(t.file, t.file[t.dir[i].block].flag, t.dir[j].block))
  }

  ghost predicate TreeOk(t: Tree, full: nat) {
    DirOk(t.dir) && BlocksIn(t) && LeavesOk(t, full) && Apart(t)
  }

  /** The records of all leaves. */
  function Contents(file: seq<Leaf>, dir: seq<Entry>): multiset<Rec>
    requires forall i :: 0 <= i < |dir| ==> dir[i].block < |file|
  {
    if dir == [] then multiset{} else multiset(LeafRecs(file, dir[0].block)) + Contents(file, dir[1..])
  }

  /** An empty index: one empty leaf for every key from `least` on. */
  function EmptyTree(least: int): Tree {
    Tree([Leaf(-1, [])], [Entry(least, 0)])
  }

  function WithEntry(dir: seq<Entry>, i: nat, e: Option<Entry>): seq<Entry>
    requires i < |dir|
  {
    match e
    case None => dir
    case Some(entry) => dir[..i + 1] + [entry] + dir[i + 1..]
  }

  function Insert(t: Tree, r: Rec, full: nat): Tree
    requires full >= 2 && t.dir != [] && t.dir[0].key <= r.key && BlocksIn(t)
    requires Sorted(t.file[t.dir[Route(t.dir, r.key)].block].recs)
  {
    var i := Route(t.dir, r.key);
    var res := LeafInsert(t.file, t.dir[i].block, r, full);
    Tree(res.0, WithEntry(t.dir, i, res.1))
  }

  /** What the iterator finds under a key. */
  function Lookup(t: Tree, key: int): seq<Rec>
    requires t.dir != [] && t.dir[0].key <= key && BlocksIn(t)
  {
    Found(t.file, t.dir[Route(t.dir, key)].block, key)
  }

  // ---- the sum over the leaves ----

  lemma {:induction false} ContentsConcat(file: seq<Leaf>, a: seq<Entry>, b: seq<Entry>)
    requires forall i :: 0 <= i < |a| ==> a[i].block < |file|
    requires forall i :: 0 <= i < |b| ==> b[i].block < |file|
    ensures Contents(file, a + b) == Contents(file, a) + Contents(file, b)
  {
    if a == [] {
      assert a + b == b;
    } else {
      assert (a + b)[1..] == a[1..] + b;
      ContentsConcat(file, a[1..], b);
    }
  }

  lemma {:induction false} ContentsAt(file: seq<Leaf>, dir: seq<Entry>, i: nat)
    requires i < |dir| && forall j :: 0 <= j < |dir| ==> dir[j].block < |file|
    ensures Contents(file, dir) ==
            Contents(file, dir[..i]) + multiset(LeafRecs(file, dir[i].block)) + Contents(file, dir[i + 1..])
  {
    assert dir == dir[..i] + ([dir[i]] + dir[i + 1..]);
    ContentsConcat(file, dir[..i], [dir[i]] + dir[i + 1..]);
    ContentsConcat(file, [dir[i]], dir[i + 1..]);
    assert Contents(file, [dir[i]]) == multiset(LeafRecs(file, dir[i].block)) by {
      assert [dir[i]][1..] == [];
    }
  }

  lemma {:induction false} ContentsFrame(file: seq<Leaf>, file': seq<Leaf>, dir: seq<Entry>)
    requires forall i :: 0 <= i < |dir| ==> dir[i].block < |file| && dir[i].block < |file'|
    requires forall i :: 0 <= i < |dir| ==> LeafRecs(file', dir[i].block) == LeafRecs(file, dir[i].block)
    ensures Contents(file', dir) == Contents(file, dir)
  {
    if dir != [] {
      ContentsFrame(file, file', dir[1..]);
    }
  }

  /** Leaves whose records do not concern a key add nothing to its count. */
  lemma {:induction false} ContentsWithout(file: seq<Leaf>, dir: seq<Entry>, r: Rec)
    requires forall i :: 0 <= i < |dir| ==> dir[i].block < |file| && r !in LeafRecs(file, dir[i].block)
    ensures Contents(file, dir)[r] == 0
  {
    if dir != [] {
      ContentsWithout(file, dir[1..], r);
    }
  }

  lemma {:induction false} LeafKeys(file: seq<Leaf>, b: nat, lo: int, hi: Option<int>, full: nat)
    requires LeafOk(file, b, lo, hi, full)
    ensures forall r :: r in LeafRecs(file, b) ==> lo <= r.key && Below(r.key, hi)
  {
    if file[b].flag >= 0 {
      ChainKeys(file, file[b].flag, file[b].recs[0].key);
      assert file[b].recs[0] in file[b].recs;
    }
  }

  // ---- main results ----

  /** A lookup finds exactly the records with its key, each as often as the index has it. */
  lemma {:induction false} LookupExact(t: Tree, full: nat, key: int, r: Rec)
    requires TreeOk(t, full) && t.dir[0].key <= key
    ensures multiset(Lookup(t, key))[r] == if r.key == key then Contents(t.file, t.dir)[r] else 0
  {
    var i := Route(t.dir, key);
    FoundCounts(t.file, t.dir[i].block, t.dir[i].key, Next(t.dir, i), full, key, r);
    if r.key == key {
      ContentsAt(t.file, t.dir, i);
      OtherLeaves(t, full, key, i, r);
    }
  }

  lemma {:induction false} LookupKeys(t: Tree, full: nat, key: int)
    requires TreeOk(t, full) && t.dir[0].key <= key
    ensures forall r :: r in Lookup(t, key) ==> r.key == key
  {
    forall r | r in Lookup(t, key) ensures r.key == key {
      LookupExact(t, full, key, r);
      assert r in multiset(Lookup(t, key));
    }
  }

  /** What the code needs to know of the leaf for a key. */
  lemma {:induction false} LeafOfKey(t: Tree, full: nat, key: int)
    requires TreeOk(t, full) && t.dir[0].key <= key
    ensures BlocksIn(t)
    ensures var page := t.file[t.dir[Route(t.dir, key)].block];
            Sorted(page.recs) && |page.recs| < full && HeadOk(t.file, page.flag, page.recs) &&
            (page.flag >= 0 ==> page.recs != [])
  {
    var i := Route(t.dir, key);
    assert LeafOk(t.file, t.dir[i].block, t.dir[i].key, Next(t.dir, i), full);
  }

  /** A key has one leaf. */
  lemma {:induction false} OtherLeaf(t: Tree, full: nat, i: nat, r: Rec, j: nat)
    requires DirOk(t.dir) && LeavesOk(t, full) && BlocksIn(t)
    requires i < |t.dir| && t.dir[i].key <= r.key && Below(r.key, Next(t.dir, i)) && j < |t.dir| && j != i
    ensures r !in LeafRecs(t.file, t.dir[j].block)
  {
    LeafKeys(t.file, t.dir[j].block, t.dir[j].key, Next(t.dir, j), full);
    assert j < i ==> t.dir[j + 1].key <= t.dir[i].key;
    assert i < j ==> t.dir[i + 1].key <= t.dir[j].key;
  }

  lemma {:induction false} OtherLeaves(t: Tree, full: nat, key: int, i: nat, r: Rec)
    requires TreeOk(t, full) && r.key == key && i < |t.dir| && t.dir[i].key <= key && Below(key, Next(t.dir, i))
    ensures Contents(t.file, t.dir[..i])[r] == 0 && Contents(t.file, t.dir[i + 1..])[r] == 0
  {
    forall j | 0 <= j < |t.dir| && j != i ensures r !in LeafRecs(t.file, t.dir[j].block) {
      OtherLeaf(t, full, i, r, j);
    }
    ContentsWithout(t.file, t.dir[..i], r);
    ContentsWithout(t.file, t.dir[i + 1..], r);
  }

  // ---- an insertion ----

  /** A leaf is as it was, chain and all. */
  ghost predicate Same(file: seq<Leaf>, file': seq<Leaf>, b: nat, lo: int, hi: Option<int>, full: nat)
    requires b < |file|
  {
    && LeafOk(file', b, lo, hi, full) && file'[b] == file[b] && LeafRecs(file', b) == LeafRecs(file, b)
    && forall c: int :: InChain(file', file'[b].flag, c) ==> InChain(file, file[b].flag, c)
  }

  ghost predicate OthersSame(t: Tree, file': seq<Leaf>, full: nat, i: nat)
    requires BlocksIn(t)
  {
    forall j :: 0 <= j < |t.dir| && j != i ==>
      Same(t.file, file', t.dir[j].block, t.dir[j].key, Next(t.dir, j), full)
  }

  /** An insertion into one leaf leaves the others as they are. */
  lemma {:induction false} OthersKept(t: Tree, file': seq<Leaf>, full: nat, i: nat)
    requires TreeOk(t, full) && i < |t.dir|
    requires |t.file| <= |file'| && forall k :: 0 <= k < |t.file| && k != t.dir[i].block ==> file'[k] == t.file[k]
    ensures OthersSame(t, file', full, i)
  {
    forall j | 0 <= j < |t.dir| && j != i ensures Same(t.file, file', t.dir[j].block, t.dir[j].key, Next(t.dir, j), full) {
      var page := t.file[t.dir[j].block];
      assert LeafOk(t.file, t.dir[j].block, t.dir[j].key, Next(t.dir, j), full);
      if page.flag >= 0 {
        ChainFrame(t.file, file', page.flag, t.dir[i].block, page.recs[0].key);
      }
    }
  }

  /** The insertion stays in its leaf. */
  lemma {:induction false} InsertOne(t: Tree, t': Tree, r: Rec, full: nat, i: nat)
    requires TreeOk(t, full) && i < |t.dir| && t'.dir == t.dir
    requires LeafInserted(t.file, t.dir[i].block, t.dir[i].key, Next(t.dir, i), r, full, t'.file, None)
    ensures TreeOk(t', full)
  {
    OthersKept(t, t'.file, full, i);
    hide LeafRecs, InChain, PageOk, HeadOk;
    assert LeavesOk(t', full);
    OneApart(t, t', full, i);
  }

  lemma {:induction false} OneApart(t: Tree, t': Tree, full: nat, i: nat)
    requires DirOk(t.dir) && BlocksIn(t) && Apart(t) && BlocksIn(t') && i < |t.dir| && t'.dir == t.dir
    requires OthersSame(t, t'.file, full, i)
    requires forall c: int :: InChain(t'.file, t'.file[t.dir[i].block].flag, c) ==>
               c == |t.file| || InChain(t.file, t.file[t.dir[i].block].flag, c)
    ensures Apart(t')
  {
    forall j, k | 0 <= j < |t.dir| && 0 <= k < |t.dir|
      ensures !InChain(t'.file, t'.file[t.dir[j].block].flag, t.dir[k].block)
    {
      assert !InChain(t.file, t.file[t.dir[j].block].flag, t.dir[k].block);
      assert j != i ==> Same(t.file, t'.file, t.dir[j].block, t.dir[j].key, Next(t.dir, j), full);
    }
  }

  /** The records of the leaves on both sides of the changed one. */
  lemma {:induction false} SidesSame(t: Tree, file': seq<Leaf>, full: nat, i: nat)
    requires BlocksIn(t) && i < |t.dir| && OthersSame(t, file', full, i) && |t.file| <= |file'|
    ensures Contents(file', t.dir[..i]) == Contents(t.file, t.dir[..i])
    ensures Contents(file', t.dir[i + 1..]) == Contents(t.file, t.dir[i + 1..])
  {
    assert forall j :: 0 <= j < |t.dir| && j != i ==>
             Same(t.file, file', t.dir[j].block, t.dir[j].key, Next(t.dir, j), full);
    ContentsFrame(t.file, file', t.dir[..i]);
    ContentsFrame(t.file, file', t.dir[i + 1..]);
  }

  lemma {:induction false} InsertOneContents(t: Tree, t': Tree, r: Rec, full: nat, i: nat)
    requires TreeOk(t, full) && i < |t.dir| && t'.dir == t.dir
    requires LeafInserted(t.file, t.dir[i].block, t.dir[i].key, Next(t.dir, i), r, full, t'.file, None)
    ensures Contents(t'.file, t'.dir) == Contents(t.file, t.dir) + multiset{r}
  {
    OthersKept(t, t'.file, full, i);
    ContentsAt(t.file, t.dir, i);
    ContentsAt(t'.file, t.dir, i);
    SidesSame(t, t'.file, full, i);
  }

  lemma {:induction false} WithEntryAt(dir: seq<Entry>, i: nat, e: Entry)
    requires DirOk(dir) && i < |dir| && dir[i].key < e.key && Below(e.key, Next(dir, i))
    ensures var dir' := WithEntry(dir, i, Some(e));
            |dir'| == |dir| + 1 && DirOk(dir') &&
            (forall j :: 0 <= j <= i ==> dir'[j] == dir[j]) && dir'[i + 1] == e &&
            (forall j :: i + 1 < j < |dir'| ==> dir'[j] == dir[j - 1])
  {
    var dir' := WithEntry(dir, i, Some(e));
    forall j, k | 0 <= j < k < |dir'| ensures dir'[j].key < dir'[k].key {
      assert k <= i || k == i + 1 || (k > i + 1 && dir'[k] == dir[k - 1]);
      assert j <= i || j == i + 1 || (j > i + 1 && dir'[j] == dir[j - 1]);
      assert j <= i ==> dir[j].key <= dir[i].key;
      assert k > i + 1 ==> dir[i + 1].key <= dir[k - 1].key;
    }
  }

  /** The leaf is split in two, and the directory gets the new separator after the old one. */
  lemma {:induction false} InsertTwo(t: Tree, t': Tree, r: Rec, full: nat, i: nat, e: Entry)
    requires TreeOk(t, full) && i < |t.dir| && t'.dir == WithEntry(t.dir, i, Some(e))
    requires LeafInserted(t.file, t.dir[i].block, t.dir[i].key, Next(t.dir, i), r, full, t'.file, Some(e))
    ensures TreeOk(t', full)
  {
    OthersKept(t, t'.file, full, i);
    WithEntryAt(t.dir, i, e);
    TwoLeaves(t, t', full, i, e);
    TwoApart(t, t', full, i, e);
  }

  lemma {:induction false} TwoLeaves(t: Tree, t': Tree, full: nat, i: nat, e: Entry)
    requires DirOk(t.dir) && BlocksIn(t) && i < |t.dir| && OthersSame(t, t'.file, full, i)
    requires t'.dir == WithEntry(t.dir, i, Some(e))
    requires LeafOk(t'.file, t.dir[i].block, t.dir[i].key, Some(e.key), full)
    requires LeafOk(t'.file, e.block, e.key, Next(t.dir, i), full)
    ensures LeavesOk(t', full) && BlocksIn(t')
  {
    hide LeafRecs, InChain, PageOk, HeadOk;
    forall j | 0 <= j < |t'.dir| ensures LeafOk(t'.file, t'.dir[j].block, t'.dir[j].key, Next(t'.dir, j), full) {
      var k := Before(i, j);
      assert k != i ==> Same(t.file, t'.file, t.dir[k].block, t.dir[k].key, Next(t.dir, k), full);
      assert j != i && j != i + 1 ==> t'.dir[j] == t.dir[k] && Next(t'.dir, j) == Next(t.dir, k);
      assert j == i ==> Next(t'.dir, j) == Some(e.key);
      assert j == i + 1 ==> Next(t'.dir, j) == Next(t.dir, i);
    }
  }

  /** The entry of the old directory for an entry of the new one. */
  function Before(i: nat, j: nat): nat {
    if j <= i then j else j - 1
  }

  lemma {:induction false} ChainFromBefore(t: Tree, t': Tree, full: nat, i: nat, e: Entry, j: nat, c: int)
    requires BlocksIn(t) && BlocksIn(t') && i < |t.dir| && t'.dir == WithEntry(t.dir, i, Some(e)) && j < |t'.dir|
    requires OthersSame(t, t'.file, full, i) && e.block == |t.file| < |t'.file|
    requires forall x: int :: InChain(t'.file, t'.file[t.dir[i].block].flag, x) ==>
               InChain(t.file, t.file[t.dir[i].block].flag, x)
    requires forall x: int :: InChain(t'.file, t'.file[e.block].flag, x) ==>
               InChain(t.file, t.file[t.dir[i].block].flag, x)
    requires InChain(t'.file, t'.file[t'.dir[j].block].flag, c)
    ensures InChain(t.file, t.file[t.dir[Before(i, j)].block].flag, c)
  {
    hide LeafRecs, LeafOk;
    var k := Before(i, j);
    assert k != i ==> t'.dir[j] == t.dir[k];
    assert k != i ==> Same(t.file, t'.file, t.dir[k].block, t.dir[k].key, Next(t.dir, k), full);
  }

  lemma {:induction false} TwoApart(t: Tree, t': Tree, full: nat, i: nat, e: Entry)
    requires DirOk(t.dir) && BlocksIn(t) && Apart(t) && BlocksIn(t') && i < |t.dir|
    requires t'.dir == WithEntry(t.dir, i, Some(e)) && e.block == |t.file| < |t'.file|
    requires OthersSame(t, t'.file, full, i)
    requires forall x: int :: InChain(t'.file, t'.file[t.dir[i].block].flag, x) ==>
               InChain(t.file, t.file[t.dir[i].block].flag, x)
    requires forall x: int :: InChain(t'.file, t'.file[e.block].flag, x) ==>
               InChain(t.file, t.file[t.dir[i].block].flag, x)
    ensures Apart(t')
  {
    forall j, k | 0 <= j < |t'.dir| && 0 <= k < |t'.dir|
      ensures !InChain(t'.file, t'.file[t'.dir[j].block].flag, t'.dir[k].block)
    {
      if InChain(t'.file, t'.file[t'.dir[j].block].flag, t'.dir[k].block) {
        ChainFromBefore(t, t', full, i, e, j, t'.dir[k].block);
        NotInChain(t, i, e, Before(i, j), k);
        assert false;
      }
    }
    forall j, k | 0 <= j < k < |t'.dir| ensures t'.dir[j].block != t'.dir[k].block {
      assert Before(i, j) < Before(i, k) ==> t.dir[Before(i, j)].block != t.dir[Before(i, k)].block;
    }
  }

  lemma {:induction false} NotInChain(t: Tree, i: nat, e: Entry, j: nat, k: nat)
    requires BlocksIn(t) && Apart(t) && i < |t.dir| && j < |t.dir| && k <= |t.dir| && e.block == |t.file|
    ensures !InChain(t.file, t.file[t.dir[j].block].flag, WithEntry(t.dir, i, Some(e))[k].block)
  {
    ChainBlocks(t.file, t.file[t.dir[j].block].flag, e.block);
    assert WithEntry(t.dir, i, Some(e))[k] == if k == i + 1 then e else t.dir[Before(i, k)];
  }

  lemma {:induction false} InsertTwoContents(t: Tree, t': Tree, r: Rec, full: nat, i: nat, e: Entry)
    requires TreeOk(t, full) && i < |t.dir| && t'.dir == WithEntry(t.dir, i, Some(e)) && BlocksIn(t')
    requires LeafInserted(t.file, t.dir[i].block, t.dir[i].key, Next(t.dir, i), r, full, t'.file, Some(e))
    ensures Contents(t'.file, t'.dir) == Contents(t.file, t.dir) + multiset{r}
  {
    OthersKept(t, t'.file, full, i);
    ContentsAt(t.file, t.dir, i);
    SidesSame(t, t'.file, full, i);
    TwoSums(t'.file, t.dir, i, e);
    hide *;
    Regroup(Contents(t.file, t.dir[..i]), multiset(LeafRecs(t'.file, t.dir[i].block)),
            multiset(LeafRecs(t'.file, e.block)), Contents(t.file, t.dir[i + 1..]),
            multiset(LeafRecs(t.file, t.dir[i].block)), multiset{r});
  }

  lemma {:induction false} TwoSums(file: seq<Leaf>, dir: seq<Entry>, i: nat, e: Entry)
    requires i < |dir| && e.block < |file| && forall j :: 0 <= j < |dir| ==> dir[j].block < |file|
    ensures forall j :: 0 <= j <= |dir| ==> WithEntry(dir, i, Some(e))[j].block < |file|
    ensures Contents(file, WithEntry(dir, i, Some(e))) ==
            Contents(file, dir[..i]) + multiset(LeafRecs(file, dir[i].block)) +
            (multiset(LeafRecs(file, e.block)) + Contents(file, dir[i + 1..]))
  {
    var dir' := WithEntry(dir, i, Some(e));
    assert dir' == dir[..i] + ([dir[i]] + ([e] + dir[i + 1..]));
    ContentsAt(file, dir', i);
    assert dir'[..i] == dir[..i] && dir'[i + 1..] == [e] + dir[i + 1..];
    assert ([e] + dir[i + 1..])[1..] == dir[i + 1..];
  }

  lemma Regroup(a: multiset<Rec>, x: multiset<Rec>, y: multiset<Rec>, c: multiset<Rec>, m: multiset<Rec>, r: multiset<Rec>)
    requires x + y == m + r
    ensures a + x + (y + c) == a + m + c + r
  {
    assert a + x + (y + c) == a + (x + y) + c;
  }

  /** An insertion keeps the index right and adds exactly its record. */
  lemma {:induction false} InsertKeeps(t: Tree, r: Rec, full: nat)
    requires full >= 2 && TreeOk(t, full) && t.dir[0].key <= r.key
    ensures Sorted(t.file[t.dir[Route(t.dir, r.key)].block].recs)
    ensures var t' := Insert(t, r, full);
            TreeOk(t', full) && t'.dir[0].key == t.dir[0].key &&
            Contents(t'.file, t'.dir) == Contents(t.file, t.dir) + multiset{r}
  {
    var i := Route(t.dir, r.key);
    var b := t.dir[i].block;
    assert LeafOk(t.file, b, t.dir[i].key, Next(t.dir, i), full);
    assert !InChain(t.file, t.file[b].flag, b);
    LeafInsertOk(t.file, b, t.dir[i].key, Next(t.dir, i), r, full);
    var t' := Insert(t, r, full);
    match LeafInsert(t.file, b, r, full).1
    case None =>
      InsertOne(t, t', r, full, i);
      InsertOneContents(t, t', r, full, i);
    case Some(e) =>
      InsertTwo(t, t', r, full, i, e);
      InsertTwoContents(t, t', r, full, i, e);
  }

  /** A leaf's entry is between the separators around the leaf, and names a new block. */
  lemma {:induction false} InsertEntry(t: Tree, r: Rec, full: nat)
    requires full >= 2 && TreeOk(t, full) && t.dir[0].key <= r.key
    ensures Sorted(t.file[t.dir[Route(t.dir, r.key)].block].recs)
    ensures var i := Route(t.dir, r.key);
            var e := LeafInsert(t.file, t.dir[i].block, r, full).1;
            e.Some? ==> e.value.block == |t.file| && t.dir[i].key < e.value.key && Below(e.value.key, Next(t.dir, i))
  {
    var i := Route(t.dir, r.key);
    assert LeafOk(t.file, t.dir[i].block, t.dir[i].key, Next(t.dir, i), full);
    assert !InChain(t.file, t.file[t.dir[i].block].flag, t.dir[i].block);
    LeafInsertOk(t.file, t.dir[i].block, t.dir[i].key, Next(t.dir, i), r, full);
  }

  // ---- runs of insertions ----

  ghost predicate FromLeast(rs: seq<Rec>, least: int) {
    forall r :: r in rs ==> least <= r.key
  }

  /** The index after a run of insertions into an empty one. */
  ghost function InsertAll(least: int, rs: seq<Rec>, full: nat): (t: Tree)
    requires full >= 2 && FromLeast(rs, least)
    ensures TreeOk(t, full) && t.dir[0].key == least && Contents(t.file, t.dir) == multiset(rs)
  {
    if rs == [] then
      EmptyOk(least, full);
      EmptyTree(least)
    else
      var n := |rs| - 1;
      SnocRecs(rs);
      InsertOnto(InsertAll(least, rs[..n], full), rs[n], full)
  }

  ghost function InsertOnto(t: Tree, r: Rec, full: nat): (t': Tree)
    requires full >= 2 && TreeOk(t, full) && t.dir[0].key <= r.key
    ensures TreeOk(t', full) && t'.dir[0].key == t.dir[0].key
    ensures Contents(t'.file, t'.dir) == Contents(t.file, t.dir) + multiset{r}
  {
    InsertKeeps(t, r, full);
    Insert(t, r, full)
  }

  lemma {:induction false} RunSnoc(least: int, rs: seq<Rec>, r: Rec, full: nat)
    requires full >= 2 && FromLeast(rs, least) && least <= r.key
    ensures FromLeast(rs + [r], least)
    ensures InsertAll(least, rs + [r], full) == InsertOnto(InsertAll(least, rs, full), r, full)
  {
    hide TreeOk, Contents;
    assert (rs + [r])[..|rs|] == rs;
  }

  lemma SnocRecs(rs: seq<Rec>)
    requires rs != []
    ensures multiset(rs) == multiset(rs[..|rs| - 1]) + multiset{rs[|rs| - 1]}
  {
    assert rs == rs[..|rs| - 1] + [rs[|rs| - 1]];
  }

  lemma {:induction false} EmptyOk(least: int, full: nat)
    requires full >= 2
    ensures TreeOk(EmptyTree(least), full) && Contents(EmptyTree(least).file, EmptyTree(least).dir) == multiset{}
  {
    var t := EmptyTree(least);
    assert LeafRecs(t.file, 0) == [];
    assert t.dir[1..] == [];
  }

  /** After any run of insertions, a lookup yields exactly the records inserted under its key. */
  lemma {:induction false} RunExact(least: int, rs: seq<Rec>, full: nat, key: int)
    requires full >= 2 && FromLeast(rs, least) && least <= key
    ensures multiset(Lookup(InsertAll(least, rs, full), key)) == multiset(WithKey(rs, key))
  {
    var t := InsertAll(least, rs, full);
    forall r ensures multiset(Lookup(t, key))[r] == multiset(WithKey(rs, key))[r] {
      LookupExact(t, full, key, r);
      WithKeyCounts(rs, key, r);
    }
  }

  // ---- deletion ----

  function Delete(t: Tree, r: Rec): Tree
    requires t.dir != [] && t.dir[0].key <= r.key && BlocksIn(t)
  {
    Tree(LeafDelete(t.file, t.dir[Route(t.dir, r.key)].block, r), t.dir)
  }

  /** The key has no overflow chain. */
  predicate NoChainFor(t: Tree, key: int)
    requires t.dir != [] && t.dir[0].key <= key && BlocksIn(t)
  {
    var page := t.file[t.dir[Route(t.dir, key)].block];
    page.flag >= 0 ==> page.recs != [] && page.recs[0].key != key
  }

  /** Without a chain for its key, a deletion keeps the index right and removes one copy of its record. */
  lemma {:induction false} DeleteKeeps(t: Tree, r: Rec, full: nat)
    requires TreeOk(t, full) && t.dir[0].key <= r.key && NoChainFor(t, r.key)
    ensures var t' := Delete(t, r);
            TreeOk(t', full) && Contents(t'.file, t'.dir) == Contents(t.file, t.dir) - multiset{r}
  {
    var i := Route(t.dir, r.key);
    var b, t' := t.dir[i].block, Delete(t, r);
    assert LeafOk(t.file, b, t.dir[i].key, Next(t.dir, i), full);
    assert !InChain(t.file, t.file[b].flag, b);
    LeafDeleteOk(t.file, b, t.dir[i].key, Next(t.dir, i), r, full);
    OthersKept(t, t'.file, full, i);
    hide InChain, LeafRecs, LeafOk, LeafDelete;
    DeleteOne(t, t', full, i);
    DeleteContents(t, t', full, i, r);
  }

  lemma {:induction false} DeleteContents(t: Tree, t': Tree, full: nat, i: nat, r: Rec)
    requires TreeOk(t, full) && i < |t.dir| && t'.dir == t.dir && BlocksIn(t') && OthersSame(t, t'.file, full, i)
    requires |t.file| <= |t'.file|
    requires t.dir[i].key <= r.key && Below(r.key, Next(t.dir, i))
    requires multiset(LeafRecs(t'.file, t.dir[i].block)) == multiset(LeafRecs(t.file, t.dir[i].block)) - multiset{r}
    ensures Contents(t'.file, t'.dir) == Contents(t.file, t.dir) - multiset{r}
  {
    ContentsAt(t.file, t.dir, i);
    ContentsAt(t'.file, t.dir, i);
    SidesSame(t, t'.file, full, i);
    OtherLeaves(t, full, r.key, i, r);
    hide *;
    TakeOne(Contents(t.file, t.dir[..i]), multiset(LeafRecs(t.file, t.dir[i].block)),
            Contents(t.file, t.dir[i + 1..]), r);
  }

  lemma {:induction false} DeleteOne(t: Tree, t': Tree, full: nat, i: nat)
    requires TreeOk(t, full) && i < |t.dir| && t'.dir == t.dir && BlocksIn(t') && OthersSame(t, t'.file, full, i)
    requires LeafOk(t'.file, t.dir[i].block, t.dir[i].key, Next(t.dir, i), full)
    requires forall c: int :: InChain(t'.file, t'.file[t.dir[i].block].flag, c) ==>
               InChain(t.file, t.file[t.dir[i].block].flag, c)
    ensures TreeOk(t', full)
  {
    hide LeafRecs, InChain, PageOk, HeadOk;
    OneApart(t, t', full, i);
    assert LeavesOk(t', full);
  }

  lemma TakeOne(a: multiset<Rec>, m: multiset<Rec>, c: multiset<Rec>, r: Rec)
    requires a[r] == 0 && c[r] == 0
    ensures a + (m - multiset{r}) + c == a + m + c - multiset{r}
  {
  }
}
