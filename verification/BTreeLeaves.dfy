/** A leaf of a B-tree index: positioned before a key, read forwards through its chain, inserted into. */
module BTreeLeaves {
  import opened Storage
  import opened LeafTree
  import opened BTreePages

  /** The pages of one index file, by block number. */
  class IndexFile {
    const blockSize: nat
    const slotSize: nat
    var pages: seq<BTreePage>
    ghost var owned: set<object>

    ghost predicate Valid()
      reads this, owned
    {
      && slotSize > 0 && this !in owned
      && (forall i :: 0 <= i < |pages| ==> pages[i] in owned && pages[i].slots in owned)
      && (forall i :: 0 <= i < |pages| ==>
            pages[i].Valid() && pages[i].blockSize == blockSize && pages[i].slotSize == slotSize)
      && (forall i, j :: 0 <= i < j < |pages| ==> pages[i] != pages[j] && pages[i].slots != pages[j].slots)
    }

    ghost function Leaves(): (file: seq<Leaf>)
      requires Valid()
      reads this, owned
      ensures |file| == |pages| && forall i :: 0 <= i < |pages| ==> file[i] == pages[i].AsLeaf()
    {
      seq(|pages|, i requires Valid() && 0 <= i < |pages| reads this, owned => pages[i].AsLeaf())
    }

    function Full(): nat
      requires slotSize > 0
    {
      FullAt(blockSize, slotSize)
    }

    constructor (blockSize: nat, slotSize: nat)
      requires slotSize > 0
      ensures this.blockSize == blockSize && this.slotSize == slotSize
      ensures Valid() && Leaves() == [] && fresh(owned)
    {
      this.blockSize, this.slotSize := blockSize, slotSize;
      pages, owned := [], {};
    }

    /** A new block at the end of the file. */
    method AppendNew(flag: int) returns (page: BTreePage)
      requires Valid()
      modifies this`pages, this`owned
      ensures Valid() && pages == old(pages) + [page] && fresh(page) && fresh(page.slots)
      ensures owned == old(owned) + {page, page.slots}
      ensures page.Valid() && page.blockSize == blockSize && page.slotSize == slotSize
      ensures page.AsLeaf() == Leaf(flag, []) && Leaves() == old(Leaves()) + [Leaf(flag, [])]
      ensures forall i :: 0 <= i < page.slots.Length ==> page.slots[i] == Rec(0, 0, 0)
    {
      page := new BTreePage(blockSize, slotSize, flag);
      pages := pages + [page];
      owned := owned + {page, page.slots};
    }

    /** Move the records from a position on to a new block. */
    method Split(b: nat, splitPos: nat, flag: int) returns (n: nat)
      requires Valid() && b < |pages| && splitPos <= pages[b].count
      modifies this`pages, this`owned, owned
      ensures Valid() && n == old(|pages|) && |pages| == n + 1 && pages[..n] == old(pages)
      ensures fresh(owned - old(owned)) && old(owned) <= owned
      ensures Leaves() == old(Leaves())[b := old(Leaves())[b].(recs := old(Leaves())[b].recs[..splitPos])] +
                          [Leaf(flag, old(Leaves())[b].recs[splitPos..])]
    {
      n := |pages|;
      var newPage := AppendNew(flag);
      Transfer(b, n, splitPos, flag);
    }

    method Transfer(b: nat, n: nat, splitPos: nat, flag: int)
      requires Valid() && b < n < |pages| && splitPos <= pages[b].count && pages[n].count == 0
      modifies owned
      ensures Valid()
      ensures var page := old(Leaves())[b];
              Leaves() == old(Leaves())[b := Leaf(page.flag, page.recs[..splitPos])][n := Leaf(flag, page.recs[splitPos..])]
    {
      ghost var recs := pages[b].Recs();
      assert pages[n].Recs() == [];
      pages[b].TransferRecords(splitPos, pages[n]);
      assert pages[n].Recs() == recs[splitPos..];
      pages[n].flag := flag;
    }

    method InsertRecord(b: nat, slot: nat, rec: Rec)
      requires Valid() && b < |pages| && slot <= pages[b].count < pages[b].slots.Length
      modifies owned
      ensures Valid()
      ensures var page := old(Leaves())[b];
              Leaves() == old(Leaves())[b := Leaf(page.flag, InsertAt(page.recs, slot, rec))]
    {
      pages[b].InsertRecord(slot, rec);
    }

    method DeleteRecord(b: nat, slot: nat)
      requires Valid() && b < |pages| && slot < pages[b].count
      modifies owned
      ensures Valid()
      ensures var page := old(Leaves())[b];
              Leaves() == old(Leaves())[b := Leaf(page.flag, DeleteAt(page.recs, slot))]
    {
      pages[b].Delete(slot);
    }

    method SetFlag(b: nat, flag: int)
      requires Valid() && b < |pages|
      modifies owned
      ensures Valid() && Leaves() == old(Leaves())[b := Leaf(flag, old(Leaves())[b].recs)]
    {
      pages[b].flag := flag;
    }
  }

  class BTreeLeaf {
    const file: IndexFile
    const searchKey: int
    var block: nat
    var currentSlot: int

    ghost predicate Valid()
      reads this, file, file.owned
    {
      file.Valid() && this !in file.owned && file.Full() >= 2 && block < |file.pages|
    }

    /** Positioned before the first record with the key. */
    ghost predicate Positioned()
      reads this, file, file.owned
      requires Valid()
    {
      currentSlot == SlotBefore(file.Leaves()[block].recs, searchKey)
    }

    constructor (file: IndexFile, block: nat, searchKey: int)
      requires file.Valid() && file.Full() >= 2 && block < |file.pages|
      ensures this.file == file && this.searchKey == searchKey && this.block == block
      ensures Valid() && Positioned()
    {
      this.file, this.searchKey, this.block := file, searchKey, block;
      var before := file.pages[block].FindSlotBefore(searchKey);
      currentSlot := before;
    }

    /** The split position of a page with two different keys. */
    method FindSplitPos() returns (splitPos: nat)
      requires Valid() && Sorted(file.Leaves()[block].recs) && |file.Leaves()[block].recs| >= 2
      requires var recs := file.Leaves()[block].recs; recs[0].key != recs[|recs| - 1].key
      ensures splitPos == SplitPos(file.Leaves()[block].recs)
    {
      var page := file.pages[block];
      splitPos := page.count / 2;
      if page.slots[splitPos].key == page.slots[0].key {
        splitPos := MoveRight(page, splitPos);
      } else {
        splitPos := MoveLeft(page, splitPos);
      }
    }
  
    // ---- reading ----

    /** The iterator is on its way through the leaf, and the chain ahead of it is sound. */
    ghost predicate Reading()
      reads this, file, file.owned
      requires Valid()
    {
      var page := file.Leaves()[block];
      -1 <= currentSlot < |page.recs| && HeadOk(file.Leaves(), page.flag, page.recs)
    }

    ghost function Ahead(): seq<Rec>
      reads this, file, file.owned
      requires Valid() && Reading()
    {
      Rest(file.Leaves(), block, currentSlot, searchKey)
    }

    ghost function Current(): Rec
      reads this, file, file.owned
      requires Valid() && Reading() && 0 <= currentSlot
    {
      file.Leaves()[block].recs[currentSlot]
    }

    /** Go to the next record with the key, in this page or at the start of an overflow block. */
    method Next() returns (ok: bool)
      requires Valid() && Reading()
      modifies this
      ensures Valid() && ok == (old(Ahead()) != [])
      ensures ok ==> Reading() && 0 <= currentSlot && Ahead() == old(Ahead())[1..]
      ensures ok ==> Current() == old(Ahead())[0]
      ensures ok && old(block) == block ==> currentSlot == old(currentSlot) + 1
      ensures block != old(block) ==> file.Leaves()[old(block)].flag >= 0
      ensures block != old(block) ==> file.Leaves()[old(block)].recs[0].key == searchKey
    {
      RestStep(file.Leaves(), block, currentSlot + 1, searchKey);
      hide Rest, ChainOk, FullAt, ChainFor;
      currentSlot := currentSlot + 1;
      var page := file.pages[block];
      if currentSlot < page.count && page.slots[currentSlot].key == searchKey {
        return true;
      }
      ok := TryOverflow();
    }

    /** The iterator is at the first of these records, and the others are ahead. */
    ghost predicate Yields(rest: seq<Rec>)
      reads this, file, file.owned
    {
      Valid() && Reading() && 0 <= currentSlot && rest != [] && Current() == rest[0] && Ahead() == rest[1..]
    }

    method ReadNext(ghost rest: seq<Rec>) returns (ok: bool)
      requires Valid() && Reading() && Ahead() == rest
      modifies this
      ensures Valid() && ok == (rest != []) && (ok ==> Yields(rest))
    {
      ok := Next();
    }

    method Read(ghost rest: seq<Rec>) returns (rec: Rec)
      requires Yields(rest) && rest[0].key == searchKey
      ensures rec == rest[0] && Valid() && Reading() && Ahead() == rest[1..]
    {
      var blockNum, id := GetRID();
      rec := Rec(searchKey, blockNum, id);
    }

    /** At the end of the page's records with the key. */
    method TryOverflow() returns (ok: bool)
      requires Valid() && 0 <= currentSlot
      requires var page := file.Leaves()[block]; HeadOk(file.Leaves(), page.flag, page.recs)
      modifies this
      ensures Valid()
      ensures var page := file.Leaves()[old(block)];
              var chain := ChainFor(file.Leaves(), old(block), searchKey);
              ok == (chain != []) &&
              if ok then Reading() && currentSlot == 0 && Ahead() == chain[1..] && block == page.flag &&
                         Current() == chain[0]
              else block == old(block)
    {
      var page := file.pages[block];
      FullIff(file.blockSize, file.slotSize, 0);
      var firstKey := page.slots[0].key;
      var flag := page.flag;
      if searchKey != firstKey || flag < 0 {
        return false;
      }
      ChainStep(file.Leaves(), flag, searchKey);
      block := flag;
      currentSlot := 0;
      ok := true;
    }

    method GetRID() returns (blockNum: int, id: int)
      requires Valid() && Reading() && 0 <= currentSlot
      ensures Current() == Rec(Current().key, blockNum, id)
    {
      var rec := file.pages[block].slots[currentSlot];
      return rec.block, rec.id;
    }

    /** Look for the record and delete it. The key must not have an overflow chain. */
    method Delete(blockNum: int, id: int)
      requires Valid() && Positioned() && Reading() && Sorted(file.Leaves()[block].recs)
      requires file.Leaves()[block].flag >= 0 ==> file.Leaves()[block].recs[0].key != searchKey
      modifies this, file.owned
      ensures Valid()
      ensures file.Leaves() == LeafDelete(old(file.Leaves()), old(block), Rec(searchKey, blockNum, id))
    {
      var rec := Rec(searchKey, blockNum, id);
      SlotKeys(file.Leaves()[block].recs, searchKey);
      hide LeafDelete;
      var found := Seek(rec);
      if found {
        DeleteHere(rec);
      } else {
        NotThere(rec);
      }
    }

    lemma NotThere(rec: Rec)
      requires Valid() && rec !in file.Leaves()[block].recs
      ensures LeafDelete(file.Leaves(), block, rec) == file.Leaves()
    {
      FirstIndexIs(file.Leaves()[block].recs, rec, |file.Leaves()[block].recs|);
    }

    /** Go through the records with the key, up to the given one. */
    method Seek(rec: Rec) returns (found: bool)
      requires Seeking(rec) && currentSlot == SlotBefore(file.Leaves()[block].recs, searchKey)
      modifies this
      ensures Valid() && block == old(block)
      ensures if found then Seeking(rec) && 0 <= currentSlot && Current() == rec else rec !in file.Leaves()[block].recs
    {
      ghost var n := |file.Leaves()[block].recs|;
      SlotKeys(file.Leaves()[block].recs, searchKey);
      assert 0 <= currentSlot ==> Current() != rec;
      hide Passed, Sorted, HeadOk, FullAt, SlotBefore;
      var more := SeekNext(rec);
      while more
        invariant block == old(block)
        invariant if more then Seeking(rec) && 0 <= currentSlot < n && Current().key == searchKey
                  else Valid() && rec !in file.Leaves()[block].recs
        decreases if more then n - currentSlot else 0
      {
        found := IsHere(rec);
        if found {
          return;
        }
        more := SeekNext(rec);
      }
      found := false;
    }

    method IsHere(rec: Rec) returns (found: bool)
      requires Seeking(rec) && 0 <= currentSlot && Current().key == searchKey
      ensures found == (Current() == rec)
    {
      var foundBlock, foundId := GetRID();
      found := foundBlock == rec.block && foundId == rec.id;
    }

    method DeleteHere(ghost rec: Rec)
      requires Seeking(rec) && 0 <= currentSlot && Current() == rec
      modifies file.owned
      ensures Valid() && file.Leaves() == LeafDelete(old(file.Leaves()), block, rec)
    {
      FirstIndexIs(file.Leaves()[block].recs, rec, currentSlot);
      file.DeleteRecord(block, currentSlot);
    }

    /** On the way to the record: not seen so far, and a record with its key is here. */
    ghost predicate Seeking(rec: Rec)
      reads this, file, file.owned
    {
      && Valid() && Reading() && Passed(file.Leaves()[block].recs, currentSlot, rec) && rec.key == searchKey
      && Sorted(file.Leaves()[block].recs)
      && (file.Leaves()[block].flag >= 0 ==> file.Leaves()[block].recs[0].key != searchKey)
    }

    method SeekNext(ghost rec: Rec) returns (more: bool)
      requires Seeking(rec) && (0 <= currentSlot ==> Current() != rec)
      modifies this
      ensures Valid() && block == old(block)
      ensures if more then Seeking(rec) && 0 <= currentSlot < |file.Leaves()[block].recs| && Current().key == searchKey &&
                           currentSlot == old(currentSlot) + 1
              else rec !in file.Leaves()[block].recs
    {
      NotYet(file.Leaves()[block].recs, currentSlot, rec);
      more := Next();
    }

    // ---- inserting ----

    /** May the leaf take a record? */
    ghost predicate Ready()
      reads this, file, file.owned
      requires Valid()
    {
      var page := file.Leaves()[block];
      Sorted(page.recs) && |page.recs| < file.Full() && (page.flag >= 0 ==> page.recs != [])
    }

    /** Insert a record with the search key. A result is the directory entry of a new leaf. */
    method Insert(blockNum: int, id: int) returns (e: Option<Entry>)
      requires Valid() && Positioned() && Ready()
      modifies this, file`pages, file`owned, file.owned
      ensures Valid() && block == old(block) && fresh(file.owned - old(file.owned))
      ensures (file.Leaves(), e) == LeafInsert(old(file.Leaves()), block, Rec(searchKey, blockNum, id), file.Full())
    {
      var page := file.pages[block];
      var rec := Rec(searchKey, blockNum, id);
      FullIff(file.blockSize, file.slotSize, 0);
      if page.flag >= 0 && page.slots[0].key > searchKey {
        var firstKey := page.slots[0].key;
        var newBlock := MoveOut(rec);
        return Some(Entry(firstKey, newBlock));
      }
      e := InsertHere(rec);
    }

    method InsertHere(rec: Rec) returns (e: Option<Entry>)
      requires Valid() && Positioned() && Ready() && rec.key == searchKey
      modifies this`currentSlot, file`pages, file`owned, file.owned
      ensures Valid() && fresh(file.owned - old(file.owned)) && Sorted(Added(old(file.Leaves())[block].recs, rec))
      ensures var page := old(file.Leaves())[block];
              var recs := Added(page.recs, rec);
              var file' := old(file.Leaves())[block := Leaf(page.flag, recs)];
              (file.Leaves(), e) == if |recs| < file.Full() then (file', None) else SplitLeaf(file', block)
    {
      hide SplitLeaf;
      currentSlot := currentSlot + 1;
      FullIff(file.blockSize, file.slotSize, 0);
      AddedSorted(file.Leaves()[block].recs, rec);
      hide Sorted;
      file.InsertRecord(block, currentSlot, rec);
      var full := file.pages[block].IsFull();
      if !full {
        return None;
      }
      e := SplitFull();
    }

    /** The new key comes before the key of the chain: the page moves, chain and all. */
    method MoveOut(rec: Rec) returns (newBlock: nat)
      requires Valid()
      modifies this`currentSlot, file`pages, file`owned, file.owned
      ensures Valid() && newBlock == old(|file.pages|) && fresh(file.owned - old(file.owned))
      ensures file.Leaves() == old(file.Leaves())[block := Leaf(-1, [rec])] + [old(file.Leaves())[block]]
    {
      MoveOutSteps(file.Leaves(), block, rec);
      newBlock := file.Split(block, 0, file.pages[block].flag);
      currentSlot := 0;
      file.SetFlag(block, -1);
      FullIff(file.blockSize, file.slotSize, 0);
      file.InsertRecord(block, currentSlot, rec);
    }

    /** Keep one record before a new overflow block. */
    method Hang()
      requires Valid() && file.Leaves()[block].recs != []
      modifies file`pages, file`owned, file.owned
      ensures Valid() && fresh(file.owned - old(file.owned))
      ensures var page := old(file.Leaves())[block];
              file.Leaves() == old(file.Leaves())[block := Leaf(old(|file.pages|), page.recs[..1])] +
                               [Leaf(page.flag, page.recs[1..])]
    {
      ghost var leaves, page := file.Leaves(), file.Leaves()[block];
      var newBlock := file.Split(block, 1, file.pages[block].flag);
      file.SetFlag(block, newBlock);
      Overwrite(leaves, [Leaf(page.flag, page.recs[1..])], block, Leaf(page.flag, page.recs[..1]),
                Leaf(newBlock, page.recs[..1]));
    }

    /** A full page is split between two keys, or keeps one record of its only key before a new overflow block. */
    method SplitFull() returns (e: Option<Entry>)
      requires Valid() && Sorted(file.Leaves()[block].recs) && |file.Leaves()[block].recs| >= 2
      modifies file`pages, file`owned, file.owned
      ensures Valid() && fresh(file.owned - old(file.owned))
      ensures (file.Leaves(), e) == SplitLeaf(old(file.Leaves()), block)
    {
      var page := file.pages[block];
      var flag := page.flag;
      if page.slots[page.count - 1].key == page.slots[0].key {
        Hang();
        return None;
      }
      SplitBetweenKeys(page.Recs());
      var splitPos := FindSplitPos();
      var splitKey := page.slots[splitPos].key;
      var newBlock := file.Split(block, splitPos, -1);
      return Some(Entry(splitKey, newBlock));
    }
  }

  /** Up to here the record was not seen, and its key is here or ahead. */
  ghost predicate Passed(recs: seq<Rec>, slot: int, rec: Rec) {
    && SlotBefore(recs, rec.key) <= slot < |recs|
    && (forall j :: 0 <= j < slot ==> recs[j] != rec)
    && (SlotBefore(recs, rec.key) < slot ==> recs[slot].key == rec.key)
  }

  lemma SlotKeys(recs: seq<Rec>, key: int)
    ensures forall i :: 0 <= i <= SlotBefore(recs, key) ==> recs[i].key != key
  {
  }

  /** If the key does not go on after a slot, the record is nowhere. */
  lemma {:induction false} NotYet(recs: seq<Rec>, slot: int, rec: Rec)
    requires Sorted(recs) && Passed(recs, slot, rec) && -1 <= slot && (0 <= slot ==> recs[slot] != rec)
    ensures if Run(recs, slot + 1, rec.key) == [] then rec !in recs else Passed(recs, slot + 1, rec)
  {
    if slot + 1 < |recs| && recs[slot + 1].key != rec.key {
      assert forall j :: slot + 1 <= j < |recs| ==> recs[j].key >= recs[slot + 1].key > rec.key;
    }
  }

  /** The three changes of a page that is moved out. */
  lemma {:induction false} MoveOutSteps(file: seq<Leaf>, b: nat, rec: Rec)
    requires b < |file|
    ensures var page := file[b];
            var split := file[b := Leaf(page.flag, page.recs[..0])] + [Leaf(page.flag, page.recs[0..])];
            split[b := Leaf(-1, page.recs[..0])][b := Leaf(-1, InsertAt(page.recs[..0], 0, rec))] ==
            file[b := Leaf(-1, [rec])] + [page]
  {
    var page := file[b];
    assert page.recs[0..] == page.recs && InsertAt(page.recs[..0], 0, rec) == [rec];
  }

  /** Past the records with the key of the given one. */
  method MoveRight(page: BTreePage, from: nat) returns (splitPos: nat)
    requires page.Valid() && Sorted(page.Recs()) && from < page.count
    requires page.Recs()[from].key != page.Recs()[page.count - 1].key
    ensures splitPos == SlotBefore(page.Recs(), page.Recs()[from].key + 1) + 1
  {
    ghost var recs := page.Recs();
    splitPos := from;
    var splitKey := page.slots[splitPos].key;
    while page.slots[splitPos].key == splitKey
      invariant from <= splitPos < |recs| && forall i :: from <= i < splitPos ==> recs[i].key == splitKey
      decreases |recs| - splitPos
    {
      assert recs[splitPos].key == splitKey;
      splitPos := splitPos + 1;
    }
    assert recs[splitPos].key != splitKey && recs[from].key == splitKey;
    SlotIs(recs, splitKey + 1, splitPos - 1);
  }

  /** Back to the first record with the key of the given one. */
  method MoveLeft(page: BTreePage, from: nat) returns (splitPos: nat)
    requires page.Valid() && Sorted(page.Recs()) && from < page.count
    requires page.Recs()[0].key != page.Recs()[from].key
    ensures splitPos == SlotBefore(page.Recs(), page.Recs()[from].key) + 1
  {
    ghost var recs := page.Recs();
    splitPos := from;
    var splitKey := page.slots[splitPos].key;
    while page.slots[splitPos - 1].key == splitKey
      invariant 0 < splitPos <= from && forall i :: splitPos <= i <= from ==> recs[i].key == splitKey
      decreases splitPos
    {
      assert recs[splitPos - 1].key == splitKey;
      splitPos := splitPos - 1;
    }
    assert recs[splitPos - 1].key != splitKey && recs[splitPos].key == splitKey;
    SlotIs(recs, splitKey, splitPos - 1);
  }
}
