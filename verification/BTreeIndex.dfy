/** An index over its two files: the leaves, and the directory pages that lead to them. */
module BTreeIndex {
  import opened Storage
  import opened LeafTree
  import LeafIndex
  import opened DirectoryPages
  import DirectoryTree
  import opened IndexDirectory
  import opened BTreePages
  import opened BTreeLeaves
  import opened BTreeDirectories

  predicate AllHave(recs: seq<Rec>, key: int) {
    forall r :: r in recs ==> r.key == key
  }

  class Index {
    const leaves: IndexFile
    const directory: IndexFile
    ghost var dir: seq<Entry>

    ghost predicate Valid()
      reads this, leaves, leaves.owned, directory, directory.owned
    {
      && Separate() && leaves.Full() >= 2 && directory.Full() >= 3
      && Agrees(AsFiles(), AsTree(), leaves.Full(), directory.Full())
    }

    /** Two files with nothing in common. */
    ghost predicate Separate()
      reads leaves, leaves.owned, directory, directory.owned
    {
      && leaves.Valid() && directory.Valid() && leaves != directory && leaves.owned !! directory.owned
      && this !in leaves.owned + directory.owned && leaves !in directory.owned && directory !in leaves.owned
    }

    ghost function AsFiles(): Files
      requires Separate()
      reads leaves, leaves.owned, directory, directory.owned
    {
      Files(leaves.Leaves(), Pages(directory))
    }

    /** The leaves under the sorted list of all separators. */
    ghost function AsTree(): LeafIndex.Tree
      requires Separate()
      reads this, leaves, leaves.owned, directory, directory.owned
    {
      LeafIndex.Tree(leaves.Leaves(), dir)
    }

    /** The entries of the index, each as often as it was put in. */
    ghost function Contents(): multiset<Rec>
      requires Valid()
      reads this, leaves, leaves.owned, directory, directory.owned
    {
      LeafIndex.Contents(leaves.Leaves(), dir)
    }

    /** One empty leaf, and a directory page that has it under the least key. */
    constructor (blockSize: nat, leafSize: nat, entrySize: nat, least: int)
      requires leafSize > 0 && FullAt(blockSize, leafSize) >= 2 && entrySize > 0 && FullAt(blockSize, entrySize) >= 3
      ensures Valid() && fresh(leaves) && fresh(directory) && dir == [Entry(least, 0)] && Contents() == multiset{}
      ensures 0 < SlotsIn(blockSize, entrySize) && AsFiles() == Empty(least, SlotsIn(blockSize, entrySize))
    {
      leaves := new IndexFile(blockSize, leafSize);
      directory := new IndexFile(blockSize, entrySize);
      dir := [Entry(least, 0)];
      new;
      FormatLeaf();
      FormatRoot(least);
      EmptyIndex(least);
    }

    method FormatLeaf()
      requires leaves.Valid() && leaves.Leaves() == []
      modifies leaves`pages, leaves`owned
      ensures leaves.Valid() && leaves.Leaves() == [Leaf(-1, [])] && fresh(leaves.owned - old(leaves.owned))
    {
      var page := leaves.AppendNew(-1);
    }

    method FormatRoot(least: int)
      requires directory.Valid() && directory.pages == [] && 0 < directory.Full()
      modifies directory`pages, directory`owned
      ensures directory.Valid() && fresh(directory.owned - old(directory.owned))
      ensures 0 < SlotsIn(directory.blockSize, directory.slotSize)
      ensures Pages(directory) == [FreshPage(0, [Rec(least, 0, 0)], SlotsIn(directory.blockSize, directory.slotSize))]
    {
      FullIff(directory.blockSize, directory.slotSize, 0);
      var root := directory.AppendNew(0);
      root.InsertRecord(0, Rec(least, 0, 0));
      FirstPage(PageOf(root), least);
    }

    lemma EmptyIndex(least: int)
      requires Separate() && leaves.Full() >= 2 && directory.Full() >= 3 && dir == [Entry(least, 0)]
      requires 0 < SlotsIn(directory.blockSize, directory.slotSize)
      requires AsFiles() == Empty(least, SlotsIn(directory.blockSize, directory.slotSize))
      ensures Valid() && Contents() == multiset{}
    {
      FullIff(directory.blockSize, directory.slotSize, 0);
      EmptyAgrees(least, leaves.Full(), directory.Full(), SlotsIn(directory.blockSize, directory.slotSize));
      LeafIndex.EmptyOk(least, leaves.Full());
      assert AsTree() == LeafIndex.EmptyTree(least);
    }

    method FindLeaf(key: int) returns (b: int)
      requires directory.Valid() && directory.Full() >= 3 && |directory.pages| > 0 && Path(Pages(directory), 0, key)
      ensures b == SearchResult(Pages(directory), 0, key)
    {
      var root := new BTreeDirectory(directory, 0);
      hide *;
      b := root.Search(key);
    }

    /** Through the directory to the leaf for the key. */
    method BeforeFirst(key: int) returns (leaf: BTreeLeaf)
      requires Separate() && leaves.Full() >= 2 && directory.Full() >= 3 && Lookup(AsFiles(), key).Some?
      ensures fresh(leaf) && leaf.file == leaves && leaf.searchKey == key
      ensures leaf.Valid() && leaf.Positioned() && leaf.block == SearchResult(Pages(directory), 0, key)
    {
      var b := FindLeaf(key);
      hide Path, SearchResult, IndexFile.Valid, FullAt, Found;
      leaf := new BTreeLeaf(leaves, b, key);
    }

    /** The key must not be astray, and a page below the root must not be filled by the leaf's entry. */
    method Insert(key: int, blockNum: int, id: int)
      requires Valid() && dir[0].key <= key && !DirectoryTree.Astray(Pages(directory), key)
      requires IndexDirectory.Fits(AsFiles(), Rec(key, blockNum, id), leaves.Full(), directory.Full())
      modifies this, leaves`pages, leaves`owned, leaves.owned, directory`pages, directory`owned, directory.owned
      ensures Valid() && dir[0].key == old(dir[0].key)
      ensures fresh(leaves.owned - old(leaves.owned)) && fresh(directory.owned - old(directory.owned))
      ensures Contents() == old(Contents()) + multiset{Rec(key, blockNum, id)}
      ensures Some(AsFiles()) ==
              IndexDirectory.Insert(old(AsFiles()), Rec(key, blockNum, id), leaves.Full(), directory.Full())
    {
      ghost var rec, full, dirFull := Rec(key, blockNum, id), leaves.Full(), directory.Full();
      InsertPlan(rec);
      ghost var x', t' := IndexDirectory.Insert(AsFiles(), rec, full, dirFull).value, LeafIndex.Insert(AsTree(), rec, full);
      assert Separate();
      hide *;
      InsertInFiles(key, blockNum, id, x', t');
    }

    method InsertInFiles(key: int, blockNum: int, id: int, ghost x: Files, ghost t: LeafIndex.Tree)
      requires Separate() && leaves.Full() >= 2 && directory.Full() >= 3 && Sound(key)
      requires IndexDirectory.Insert(AsFiles(), Rec(key, blockNum, id), leaves.Full(), directory.Full()) == Some(x)
      requires x.leaves == t.file && Agrees(x, t, leaves.Full(), directory.Full())
      modifies this, leaves`pages, leaves`owned, leaves.owned, directory`pages, directory`owned, directory.owned
      ensures Valid() && AsFiles() == x && dir == t.dir && leaves.Leaves() == t.file
      ensures fresh(leaves.owned - old(leaves.owned)) && fresh(directory.owned - old(directory.owned))
    {
      hide Sound, InLeaf, IndexFile.Valid, DirectoryTree.Takes, DirectoryTree.IndexEntry, FullAt, Agrees;
      dir := t.dir;
      var e := InsertInLeaf(key, blockNum, id);
      if e.Some? {
        InsertEntry(e.value);
      }
    }

    /** What the insertion makes of the files, and of the leaves under the list. */
    lemma InsertPlan(rec: Rec)
      requires Valid() && dir[0].key <= rec.key && !DirectoryTree.Astray(Pages(directory), rec.key)
      requires IndexDirectory.Fits(AsFiles(), rec, leaves.Full(), directory.Full())
      ensures Sound(rec.key) && LeafIndex.BlocksIn(AsTree())
      ensures Sorted(AsTree().file[dir[LeafIndex.Route(dir, rec.key)].block].recs)
      ensures IndexDirectory.Insert(AsFiles(), rec, leaves.Full(), directory.Full()).Some?
      ensures var x' := IndexDirectory.Insert(AsFiles(), rec, leaves.Full(), directory.Full()).value;
              var t' := LeafIndex.Insert(AsTree(), rec, leaves.Full());
              Agrees(x', t', leaves.Full(), directory.Full()) && x'.leaves == t'.file && t'.dir != [] &&
              t'.dir[0].key == dir[0].key && LeafIndex.BlocksIn(t') &&
              LeafIndex.Contents(t'.file, t'.dir) == Contents() + multiset{rec}
    {
      InsertAgrees(AsFiles(), AsTree(), rec, leaves.Full(), directory.Full());
      LeafIndex.InsertKeeps(AsTree(), rec, leaves.Full());
      SoundLeaf(rec.key);
    }

    /** The leaf that a search for the key ends at is sound. */
    ghost predicate Sound(key: int)
      requires leaves.Valid() && directory.Valid() && leaves.slotSize > 0
      reads leaves, leaves.owned, directory, directory.owned
    {
      && Path(Pages(directory), 0, key) && 0 <= SearchResult(Pages(directory), 0, key) < |leaves.Leaves()|
      && var page := leaves.Leaves()[SearchResult(Pages(directory), 0, key)];
         Sorted(page.recs) && |page.recs| < leaves.Full() && HeadOk(leaves.Leaves(), page.flag, page.recs) &&
         (page.flag >= 0 ==> page.recs != [])
    }

    lemma SoundLeaf(key: int)
      requires Valid() && dir[0].key <= key && !DirectoryTree.Astray(Pages(directory), key)
      ensures Sound(key)
    {
      LeafIndex.LeafOfKey(AsTree(), leaves.Full(), key);
      FindsLeafIff(Pages(directory), dir, directory.Full(), key);
    }

    method InsertInLeaf(key: int, blockNum: int, id: int) returns (e: Option<Entry>)
      requires Separate() && leaves.Full() >= 2 && directory.Full() >= 3 && Sound(key)
      modifies leaves`pages, leaves`owned, leaves.owned
      ensures leaves.Valid() && fresh(leaves.owned - old(leaves.owned))
      ensures InLeaf(old(AsFiles()), Rec(key, blockNum, id), leaves.Full()) == Some((leaves.Leaves(), e))
    {
      var leaf := BeforeFirst(key);
      assert leaf.Ready();
      assert InLeaf(AsFiles(), Rec(key, blockNum, id), leaves.Full()) ==
             Some(LeafInsert(leaves.Leaves(), leaf.block, Rec(key, blockNum, id), leaves.Full()));
      hide *;
      e := leaf.Insert(blockNum, id);
    }

    method InsertEntry(e: Entry)
      requires directory.Valid() && directory.Full() >= 3
      requires DirectoryTree.Takes(Pages(directory), Rec(e.key, e.block, 0), directory.Full())
      modifies directory`pages, directory`owned, directory.owned
      ensures directory.Valid() && fresh(directory.owned - old(directory.owned))
      ensures Pages(directory) == DirectoryTree.IndexEntry(old(Pages(directory)), Rec(e.key, e.block, 0), directory.Full())
    {
      assert |directory.pages| > 0;
      hide DirectoryTree.Takes, FullAt, IndexFile.Valid, DirectoryTree.IndexEntry;
      var root := new BTreeDirectory(directory, 0);
      hide *;
      root.InsertFromRoot(Rec(e.key, e.block, 0));
    }

    /** The key must not be astray, and must not have an overflow chain. */
    method Delete(key: int, blockNum: int, id: int)
      requires Valid() && dir[0].key <= key && !DirectoryTree.Astray(Pages(directory), key)
      requires LeafIndex.NoChainFor(AsTree(), key)
      modifies leaves.owned
      ensures Valid() && Contents() == old(Contents()) - multiset{Rec(key, blockNum, id)}
      ensures Pages(directory) == old(Pages(directory))
    {
      ghost var rec := Rec(key, blockNum, id);
      DeletePlan(rec);
      ghost var pages, t' := Pages(directory), LeafIndex.Delete(AsTree(), rec);
      assert Separate();
      hide *;
      DeleteInFiles(key, blockNum, id, pages, t');
    }

    lemma DeletePlan(rec: Rec)
      requires Valid() && dir[0].key <= rec.key && !DirectoryTree.Astray(Pages(directory), rec.key)
      requires LeafIndex.NoChainFor(AsTree(), rec.key)
      ensures Sound(rec.key) && NoChainIn(rec.key) && LeafIndex.BlocksIn(AsTree())
      ensures var t' := LeafIndex.Delete(AsTree(), rec);
              Agrees(Files(t'.file, Pages(directory)), t', leaves.Full(), directory.Full()) && t'.dir == dir &&
              t'.file == LeafDelete(leaves.Leaves(), SearchResult(Pages(directory), 0, rec.key), rec) &&
              LeafIndex.BlocksIn(t') && LeafIndex.Contents(t'.file, t'.dir) == Contents() - multiset{rec}
    {
      LeafIndex.DeleteKeeps(AsTree(), rec, leaves.Full());
      SoundLeaf(rec.key);
      FindsLeafIff(Pages(directory), dir, directory.Full(), rec.key);
      hide LeafIndex.TreeOk, LeafDelete, Held, DirectoryTree.Astray, IndexFile.Valid, Sorted, HeadOk;
    }

    ghost predicate NoChainIn(key: int)
      requires leaves.Valid() && directory.Valid() && leaves.slotSize > 0 && Sound(key)
      reads leaves, leaves.owned, directory, directory.owned
    {
      var page := leaves.Leaves()[SearchResult(Pages(directory), 0, key)];
      page.flag >= 0 ==> page.recs[0].key != key
    }

    method DeleteInFiles(key: int, blockNum: int, id: int, ghost pages: seq<DirPage>, ghost t: LeafIndex.Tree)
      requires Separate() && leaves.Full() >= 2 && directory.Full() >= 3 && Sound(key) && NoChainIn(key)
      requires dir == t.dir && Pages(directory) == pages
      requires t.file == LeafDelete(leaves.Leaves(), SearchResult(pages, 0, key), Rec(key, blockNum, id))
      requires Agrees(Files(t.file, pages), t, leaves.Full(), directory.Full())
      modifies leaves.owned
      ensures Valid() && leaves.Leaves() == t.file && Pages(directory) == pages
    {
      hide LeafDelete, FullAt, Agrees, IndexFile.Valid, Path, SearchResult, Sound, NoChainIn;
      DeleteInLeaf(key, blockNum, id);
      assert AsFiles() == Files(t.file, pages);
    }

    method DeleteInLeaf(key: int, blockNum: int, id: int)
      requires Separate() && leaves.Full() >= 2 && directory.Full() >= 3 && Sound(key) && NoChainIn(key)
      modifies leaves.owned
      ensures leaves.Valid() && leaves.owned == old(leaves.owned)
      ensures leaves.Leaves() ==
              LeafDelete(old(leaves.Leaves()), old(SearchResult(Pages(directory), 0, key)), Rec(key, blockNum, id))
    {
      var leaf := BeforeFirst(key);
      assert leaf.Reading() && leaf.block < |leaf.file.Leaves()|;
      ghost var page := leaf.file.Leaves()[leaf.block];
      assert Sorted(page.recs) && (page.flag >= 0 ==> page.recs[0].key != key);
      hide *;
      leaf.Delete(blockNum, id);
    }

    /** The loop of a client that reads all records with a key: none of them if the key is astray. */
    method FindAll(key: int) returns (found: seq<Rec>)
      requires Valid() && dir[0].key <= key && Lookup(AsFiles(), key).Some?
      ensures !DirectoryTree.Astray(Pages(directory), key) ==>
              forall r :: multiset(found)[r] == if r.key == key then Contents()[r] else 0
      ensures DirectoryTree.Astray(Pages(directory), key) ==> found == []
    {
      ReadPlan(key);
      assert Separate();
      hide *;
      found := Read(key);
      FoundExact(key, found);
    }

    method Read(key: int) returns (found: seq<Rec>)
      requires Separate() && leaves.Full() >= 2 && directory.Full() >= 3 && Lookup(AsFiles(), key).Some?
      requires var page := leaves.Leaves()[SearchResult(Pages(directory), 0, key)];
               HeadOk(leaves.Leaves(), page.flag, page.recs) && Sorted(page.recs)
      requires AllHave(Lookup(AsFiles(), key).value, key)
      ensures Lookup(AsFiles(), key) == Some(found)
    {
      var leaf := OpenLeaf(key);
      hide *;
      found := ReadAll(leaf);
    }

    /** The leaf that the search ends at, right or wrong, can be read, and has only records with the key to yield. */
    lemma ReadPlan(key: int)
      requires Valid() && dir[0].key <= key && Lookup(AsFiles(), key).Some?
      ensures var page := leaves.Leaves()[SearchResult(Pages(directory), 0, key)];
              HeadOk(leaves.Leaves(), page.flag, page.recs) && Sorted(page.recs)
      ensures AllHave(Lookup(AsFiles(), key).value, key)
    {
      var b := SearchResult(Pages(directory), 0, key);
      AmongLeaves(Pages(directory), dir, directory.Full(), key);
      var j :| 0 <= j < |dir| && dir[j].block == b;
      assert LeafOk(leaves.Leaves(), b, dir[j].key, LeafIndex.Next(dir, j), leaves.Full());
      if DirectoryTree.Astray(Pages(directory), key) {
        AstrayFinds(AsFiles(), AsTree(), leaves.Full(), directory.Full(), key);
      } else {
        SameLookup(AsFiles(), AsTree(), leaves.Full(), directory.Full(), key);
        LeafIndex.LookupKeys(AsTree(), leaves.Full(), key);
      }
    }

    method OpenLeaf(key: int) returns (leaf: BTreeLeaf)
      requires Separate() && leaves.Full() >= 2 && directory.Full() >= 3 && Lookup(AsFiles(), key).Some?
      requires var page := leaves.Leaves()[SearchResult(Pages(directory), 0, key)];
               HeadOk(leaves.Leaves(), page.flag, page.recs) && Sorted(page.recs)
      ensures fresh(leaf) && leaf.file == leaves && leaf.searchKey == key && leaf.Valid() && leaf.Reading()
      ensures leaf.Ahead() == Lookup(AsFiles(), key).value
    {
      leaf := BeforeFirst(key);
      RestIsFound(leaves.Leaves(), leaf.block, key);
    }

    lemma FoundExact(key: int, found: seq<Rec>)
      requires Valid() && dir != [] && dir[0].key <= key && Lookup(AsFiles(), key) == Some(found)
      ensures !DirectoryTree.Astray(Pages(directory), key) ==>
              forall r :: multiset(found)[r] == if r.key == key then Contents()[r] else 0
      ensures DirectoryTree.Astray(Pages(directory), key) ==> found == []
    {
      if DirectoryTree.Astray(Pages(directory), key) {
        AstrayFinds(AsFiles(), AsTree(), leaves.Full(), directory.Full(), key);
      } else {
        SameLookup(AsFiles(), AsTree(), leaves.Full(), directory.Full(), key);
        forall r ensures multiset(found)[r] == if r.key == key then Contents()[r] else 0 {
          LeafIndex.LookupExact(AsTree(), leaves.Full(), key, r);
        }
      }
    }

    method ReadAll(leaf: BTreeLeaf) returns (found: seq<Rec>)
      requires leaf.Valid() && leaf.Reading()
      requires AllHave(leaf.Ahead(), leaf.searchKey)
      modifies leaf
      ensures found == old(leaf.Ahead())
    {
      ghost var all := leaf.Ahead();
      found := [];
      assert all[0..] == all;
      hide *;
      var more := leaf.ReadNext(all);
      while more
        invariant |found| <= |all| && found == all[..|found|]
        invariant more == (|found| < |all|) && (more ==> leaf.Yields(all[|found|..]))
        decreases |all| - |found|
      {
        ghost var k := |found|;
        NextOf(all, k, leaf.searchKey);
        var rec := leaf.Read(all[k..]);
        found := found + [rec];
        more := leaf.ReadNext(all[k + 1..]);
      }
    }

    lemma NextOf(all: seq<Rec>, k: nat, key: int)
      requires k < |all| && AllHave(all, key)
      ensures all[k].key == key && all[k..] != [] && all[k..][0] == all[k]
      ensures all[k..][1..] == all[k + 1..] && all[..k + 1] == all[..k] + [all[k]]
    {
    }

  }

  lemma {:induction false} FirstPage(p: DirPage, least: int)
    requires p.level == 0 && p.count == 1 <= |p.slots| && p.slots[0] == Rec(least, 0, 0)
    requires forall i :: 1 <= i < |p.slots| ==> p.slots[i] == DefaultRec
    ensures p == FreshPage(0, [Rec(least, 0, 0)], |p.slots|)
  {
    assert p.slots == FreshPage(0, [Rec(least, 0, 0)], |p.slots|).slots;
  }
}
