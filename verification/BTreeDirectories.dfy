/** The directory of a B-tree index, changed in place and grown by a level. */
module BTreeDirectories {
  import opened Storage
  import opened LeafTree
  import opened BTreePages
  import opened BTreeLeaves
  import opened DirectoryPages
  import DirectoryTree

  /** A page with all its slots. */
  ghost function PageOf(page: BTreePage): DirPage
    reads page, page.slots
  {
    DirPage(page.flag, page.count, page.slots[..])
  }

  ghost function Pages(file: IndexFile): (pages: seq<DirPage>)
    requires file.Valid()
    reads file, file.owned
    ensures |pages| == |file.pages|
    ensures forall i :: 0 <= i < |pages| ==> pages[i] == PageOf(file.pages[i])
  {
    seq(|file.pages|, i requires file.Valid() && 0 <= i < |file.pages| reads file, file.owned => PageOf(file.pages[i]))
  }

  /** Moving records leaves copies of the last one behind, and default records behind those that moved. */
  lemma {:induction false} TransferredPages(p: DirPage, pos: nat, slots: seq<Rec>, level: int, moved: seq<Rec>,
                                            behind: seq<Rec>)
    requires p.Fits() && pos <= p.count && |slots| == |p.slots| == |moved| == |behind|
    requires slots[..pos] == p.Recs()[..pos] && Stale(slots, p.slots, p.count, pos)
    requires moved[..p.count - pos] == p.Recs()[pos..] && moved[p.count - pos..] == behind[p.count - pos..]
    requires forall i :: 0 <= i < |behind| ==> behind[i] == DefaultRec
    ensures DirPage(p.level, pos, slots) == Emptied(p, pos)
    ensures DirPage(level, p.count - pos, moved) == FreshPage(level, p.Recs()[pos..], |p.slots|)
  {
    var e, n := Emptied(p, pos), p.count - pos;
    forall i | 0 <= i < |slots| ensures slots[i] == e.slots[i] {
      assert i < pos ==> slots[i] == slots[..pos][i] == p.slots[i];
    }
    assert slots == e.slots;
    forall i | n <= i < |moved| ensures moved[i] == DefaultRec {
      assert moved[i] == moved[n..][i - n] == behind[n..][i - n];
    }
    assert moved == moved[..n] + moved[n..];
    assert moved == FreshPage(level, p.Recs()[pos..], |p.slots|).slots;
  }

  class BTreeDirectory {
    const file: IndexFile
    var block: nat

    ghost predicate Valid()
      reads this, file, file.owned
    {
      file.Valid() && this !in file.owned && file.Full() >= 3 && block < |file.pages|
    }

    constructor (file: IndexFile, block: nat)
      requires file.Valid() && file.Full() >= 3 && block < |file.pages|
      ensures this.file == file && this.block == block && Valid()
    {
      this.file, this.block := file, block;
    }

    /** The slot past the record count is read as well. */
    method FindChildBlock(key: int) returns (child: int)
      requires Valid() && PageReady(Pages(file)[block]) && Pages(file)[block].slots[0].key <= key
      ensures child == FoundChild(Pages(file)[block], key)
    {
      var page := file.pages[block];
      RoutedIff(Pages(file)[block], key);
      var slot := page.FindSlotBefore(key);
      if page.slots[slot + 1].key == key {
        slot := slot + 1;
      }
      child := page.slots[slot].block;
    }

    /** Down to the page at level 0, whose entries name leaves. */
    method Search(key: int) returns (leaf: int)
      requires Valid() && Path(Pages(file), block, key)
      modifies this
      ensures leaf == SearchResult(old(Pages(file)), old(block), key)
    {
      ghost var pages := Pages(file);
      var child := FindChildBlock(key);
      while file.pages[block].flag > 0
        invariant Valid() && Pages(file) == pages && Path(pages, block, key) && child == FoundChild(pages[block], key)
        invariant SearchResult(pages, block, key) == SearchResult(pages, old(block), key)
        decreases file.pages[block].flag
      {
        hide FoundChild, PageReady, FullAt;
        block := child;
        child := FindChildBlock(key);
      }
      leaf := child;
    }

    /** Move the records from a position on to a new page at the end of the file. */
    method Split(pos: nat) returns (newBlock: nat)
      requires Valid() && pos <= Pages(file)[block].count
      modifies file`pages, file`owned, file.owned
      ensures Valid() && newBlock == |old(Pages(file))| && fresh(file.owned - old(file.owned))
      ensures Pages(file)[block].Fits() && Pages(file) == SplitPages(old(Pages(file)), block, pos)
    {
      newBlock := |file.pages|;
      var newPage := file.AppendNew(file.pages[block].flag);
      Move(pos, newBlock);
    }

    method Move(pos: nat, n: nat)
      requires Valid() && block < n < |file.pages| && pos <= Pages(file)[block].count
      requires Pages(file)[n].count == 0 && Pages(file)[n].level == Pages(file)[block].level
      requires forall i :: 0 <= i < |Pages(file)[n].slots| ==> Pages(file)[n].slots[i] == DefaultRec
      modifies file.owned
      ensures Valid()
      ensures var p := old(Pages(file))[block];
              Pages(file) == old(Pages(file))[block := Emptied(p, pos)][n := FreshPage(p.level, p.Recs()[pos..], |p.slots|)]
    {
      var page, to := file.pages[block], file.pages[n];
      ghost var p, behind := PageOf(page), to.slots[..];
      assert to.Recs() == [];
      page.TransferRecords(pos, to);
      TransferredPages(p, pos, page.slots[..], p.level, to.slots[..], behind);
    }

    method Put(e: Rec)
      requires Valid() && Pages(file)[block].count < |Pages(file)[block].slots|
      modifies file.owned
      ensures Valid() && Pages(file) == old(Pages(file))[block := WithSeparator(old(Pages(file))[block], e)]
    {
      var page := file.pages[block];
      ghost var p := PageOf(page);
      var before := page.FindSlotBefore(e.key);
      page.InsertRecord(before + 1, e);
      PutSlots(p.slots, p.count, before + 1, e, page.slots[..]);
    }

    /** A result is the entry of the new page that has the upper half of the records. */
    method InsertEntry(e: Rec) returns (r: Option<Entry>)
      requires Valid() && Pages(file)[block].count < |Pages(file)[block].slots|
      modifies file`pages, file`owned, file.owned
      ensures Valid() && fresh(file.owned - old(file.owned))
      ensures (Pages(file), r) == DirectoryPages.InsertEntry(old(Pages(file)), block, e, file.Full())
    {
      Put(e);
      var page := file.pages[block];
      var full := page.IsFull();
      if !full {
        return None;
      }
      var splitPos := page.count / 2;
      var splitKey := page.slots[splitPos].key;
      var newBlock := Split(splitPos);
      return Some(Entry(splitKey, newBlock));
    }

    method SetLevel(level: int)
      requires Valid()
      modifies file.owned
      ensures Valid() && Pages(file) == old(Pages(file))[block := old(Pages(file))[block].(level := level)]
    {
      file.pages[block].flag := level;
    }

    method MakeNewRoot(e: Rec)
      requires Valid() && 0 < Pages(file)[block].count < |Pages(file)[block].slots|
      modifies file`pages, file`owned, file.owned
      ensures Valid() && fresh(file.owned - old(file.owned)) && 3 <= |old(Pages(file))[block].slots|
      ensures Pages(file) == DirectoryPages.MakeNewRoot(old(Pages(file)), block, e)
    {
      var firstKey, level := file.pages[block].slots[0].key, file.pages[block].flag;
      FullIff(file.blockSize, file.slotSize, 0);
      RootSteps(Pages(file), block, e, file.Full());
      hide DirectoryPages.InsertEntry, DirectoryPages.MakeNewRoot, SplitPages, WithSeparator, FullAt;
      var newBlock := Split(0);
      var none := InsertEntry(Rec(firstKey, newBlock, 0));
      none := InsertEntry(e);
      SetLevel(level + 1);
    }

    /** Down to a page at level 0, which takes the entry. What a split there gives is handed up as it is. */
    method Insert(e: Rec) returns (r: Option<Entry>)
      requires Valid() && Path(Pages(file), block, e.key)
      modifies file`pages, file`owned, file.owned
      ensures Valid() && fresh(file.owned - old(file.owned))
      ensures (Pages(file), r) == DirectoryTree.DirInsert(old(Pages(file)), block, e, file.Full())
      decreases Pages(file)[block].level
    {
      assert Pages(file)[block].count < |Pages(file)[block].slots|;
      hide FoundChild, PageReady, WithSeparator, DirectoryPages.InsertEntry, FullAt;
      if file.pages[block].flag == 0 {
        r := InsertEntry(e);
      } else {
        var childBlock := FindChildBlock(e.key);
        var child := new BTreeDirectory(file, childBlock);
        hide Path, SearchResult, IndexFile.Valid;
        r := child.Insert(e);
      }
    }

    /** A leaf's entry, from the root on: an entry that is handed up gives the root a new level. */
    method InsertFromRoot(e: Rec)
      requires Valid() && block == 0 && DirectoryTree.Takes(Pages(file), e, file.Full())
      modifies file`pages, file`owned, file.owned
      ensures Valid() && fresh(file.owned - old(file.owned))
      ensures Pages(file) == DirectoryTree.IndexEntry(old(Pages(file)), e, file.Full())
    {
      hide DirectoryPages.MakeNewRoot, DirectoryTree.DirInsert, Path, FullAt;
      var entry := Insert(e);
      if entry.Some? {
        MakeNewRoot(Rec(entry.value.key, entry.value.block, 0));
      }
    }
  }

  lemma {:induction false} PutSlots(slots: seq<Rec>, count: nat, i: nat, e: Rec, slots': seq<Rec>)
    requires i <= count < |slots| == |slots'|
    requires slots'[..count + 1] == InsertAt(slots[..count], i, e)
    requires forall j :: count + 1 <= j < |slots| ==> slots'[j] == slots[j]
    ensures slots' == InsertSlots(slots, count, i, e)
  {
    assert slots' == slots'[..count + 1] + slots'[count + 1..];
    assert slots'[count + 1..] == slots[count + 1..];
  }
}
