/** A table as blocks of record slots, and the scan that walks and changes it. */
module Tables {
  import opened QueryText

  datatype Constant = Int(i: int) | Str(s: string)

  type Row = map<string, Constant>

  /** A slot keeps its field values when it is emptied. */
  datatype Slot = Slot(used: bool, row: Row)

  /** A record's place. Slot -1 is before the first slot of the block. */
  datatype RID = RID(block: nat, slot: int) {
    predicate Before(other: RID) {
      block < other.block || (block == other.block && slot < other.slot)
    }
  }

  type Blocks = seq<seq<Slot>>

  ghost predicate Shaped(blocks: Blocks, perBlock: nat) {
    perBlock > 0 && blocks != [] && forall b :: 0 <= b < |blocks| ==> |blocks[b]| == perBlock
  }

  predicate In(blocks: Blocks, r: RID) {
    r.block < |blocks| && 0 <= r.slot < |blocks[r.block]|
  }

  function At(blocks: Blocks, r: RID): Slot
    requires In(blocks, r)
  {
    blocks[r.block][r.slot]
  }

  predicate Used(blocks: Blocks, r: RID) {
    In(blocks, r) && At(blocks, r).used
  }

  function Put(blocks: Blocks, r: RID, s: Slot): Blocks
    requires In(blocks, r)
  {
    blocks[r.block := blocks[r.block][r.slot := s]]
  }

  lemma {:induction false} PutPut(blocks: Blocks, r: RID, s: Slot, t: Slot)
    requires In(blocks, r)
    ensures In(Put(blocks, r, s), r) && At(Put(blocks, r, s), r) == s
    ensures Put(Put(blocks, r, s), r, t) == Put(blocks, r, t)
    ensures Put(blocks, r, At(blocks, r)) == blocks
  {
    var block := blocks[r.block];
    assert block[r.slot := s][r.slot := t] == block[r.slot := t];
    assert block[r.slot := block[r.slot]] == block;
    assert blocks[r.block := block[r.slot := s]][r.block := block[r.slot := t]] == blocks[r.block := block[r.slot := t]];
  }

  /** A new block: empty slots with default values. */
  function FreshBlock(perBlock: nat, default: Row): (b: seq<Slot>)
    ensures |b| == perBlock && forall i :: 0 <= i < perBlock ==> b[i] == Slot(false, default)
  {
    seq(perBlock, _ => Slot(false, default))
  }

  /** Nothing used, or nothing empty, lies between two places. */
  ghost predicate NoneBetween(blocks: Blocks, p: RID, q: RID, used: bool) {
    forall r: RID :: In(blocks, r) && p.Before(r) && r.Before(q) ==> At(blocks, r).used != used
  }

  ghost predicate NoneAfter(blocks: Blocks, p: RID, used: bool) {
    forall r: RID :: In(blocks, r) && p.Before(r) ==> At(blocks, r).used != used
  }

  class TableFile {
    const perBlock: nat
    const default: Row
    var blocks: Blocks

    ghost predicate Valid()
      reads this
    {
      Shaped(blocks, perBlock)
    }

    constructor (perBlock: nat, default: Row)
      requires perBlock > 0
      ensures Valid() && this.perBlock == perBlock && this.default == default
      ensures blocks == [FreshBlock(perBlock, default)]
    {
      this.perBlock, this.default := perBlock, default;
      blocks := [FreshBlock(perBlock, default)];
    }
  }

  class TableScan {
    const file: TableFile
    var block: nat
    var currentSlot: int

    ghost predicate Valid()
      reads this, file
    {
      file.Valid() && block < |file.blocks| && -1 <= currentSlot < file.perBlock
    }

    ghost function Here(): RID
      reads this
    {
      RID(block, currentSlot)
    }

    constructor (file: TableFile)
      requires file.Valid()
      ensures this.file == file && Valid() && Here() == RID(0, -1)
    {
      this.file, block, currentSlot := file, 0, -1;
    }

    /** The next slot of the block that is used, or that is empty; -1 if there is none. */
    method SearchAfter(slot: int, used: bool) returns (found: int)
      requires Valid() && -1 <= slot < file.perBlock
      ensures -1 <= found < file.perBlock
      ensures found >= 0 ==> slot < found && file.blocks[block][found].used == used
      ensures forall k :: slot < k < (if found >= 0 then found else file.perBlock) ==> file.blocks[block][k].used != used
    {
      found := slot + 1;
      while found < file.perBlock
        invariant slot < found <= file.perBlock
        invariant forall k :: slot < k < found ==> file.blocks[block][k].used != used
      {
        if file.blocks[block][found].used == used {
          return;
        }
        found := found + 1;
      }
      found := -1;
    }

    /** To the next used slot, in the order of blocks and slots. */
    method Next() returns (ok: bool)
      requires Valid()
      modifies this
      ensures ok ==> Valid() && Used(file.blocks, Here()) && old(Here()).Before(Here()) &&
                     NoneBetween(file.blocks, old(Here()), Here(), true)
      ensures !ok ==> NoneAfter(file.blocks, old(Here()), true)
    {
      var slot := SearchAfter(currentSlot, true);
      while slot < 0
        invariant old(block) <= block < |file.blocks| && -1 <= slot < file.perBlock
        invariant slot >= 0 ==> file.blocks[block][slot].used && old(Here()).Before(RID(block, slot))
        invariant NoneBetween(file.blocks, old(Here()), RID(block, if slot < 0 then file.perBlock else slot), true)
        decreases |file.blocks| - block, -slot
      {
        if block == |file.blocks| - 1 {
          currentSlot := slot;
          return false;
        }
        MoveToBlock(block + 1);
        slot := SearchAfter(currentSlot, true);
      }
      currentSlot := slot;
      ok := true;
    }

    method MoveToBlock(b: nat)
      requires file.Valid() && b < |file.blocks|
      modifies this
      ensures Valid() && Here() == RID(b, -1)
    {
      block, currentSlot := b, -1;
    }

    /** What the file is before a slot is taken: it has grown by a block if no slot ahead was empty. */
    ghost function Grown(): Blocks
      reads this, file
    {
      if NoneAfter(file.blocks, Here(), false) then file.blocks + [FreshBlock(file.perBlock, file.default)]
      else file.blocks
    }

    /** Take the next empty slot; its values stay. */
    method Insert()
      requires Valid()
      modifies this, file
      ensures Valid() && old(Here()).Before(Here()) && In(old(Grown()), Here())
      ensures !At(old(Grown()), Here()).used && NoneBetween(old(Grown()), old(Here()), Here(), false)
      ensures file.blocks == Put(old(Grown()), Here(), At(old(Grown()), Here()).(used := true))
    {
      ghost var blocks := file.blocks;
      var slot := SearchAfter(currentSlot, false);
      while slot < 0
        invariant file.Valid() && old(block) <= block < |file.blocks| && -1 <= slot < file.perBlock
        invariant slot >= 0 ==> !file.blocks[block][slot].used && old(Here()).Before(RID(block, slot))
        invariant NoneBetween(file.blocks, old(Here()), RID(block, if slot < 0 then file.perBlock else slot), false)
        invariant file.blocks == blocks ||
                  (file.blocks == old(Grown()) && |file.blocks| == |blocks| + 1 && slot >= 0)
        decreases |blocks| - block, -slot
      {
        if block == |file.blocks| - 1 {
          assert NoneAfter(blocks, old(Here()), false);
          MoveToNewBlock();
          assert !file.blocks[block][0].used;
        } else {
          MoveToBlock(block + 1);
        }
        slot := SearchAfter(currentSlot, false);
      }
      currentSlot := slot;
      SetUsed(true);
    }

    method MoveToNewBlock()
      requires file.Valid()
      modifies this, file
      ensures Valid() && Here() == RID(|old(file.blocks)|, -1)
      ensures file.blocks == old(file.blocks) + [FreshBlock(file.perBlock, file.default)]
    {
      file.blocks := file.blocks + [FreshBlock(file.perBlock, file.default)];
      block, currentSlot := |file.blocks| - 1, -1;
    }

    method SetUsed(used: bool)
      requires Valid() && 0 <= currentSlot
      modifies file
      ensures Valid() && file.blocks == Put(old(file.blocks), Here(), At(old(file.blocks), Here()).(used := used))
    {
      var slot := file.blocks[block][currentSlot];
      file.blocks := file.blocks[block := file.blocks[block][currentSlot := slot.(used := used)]];
    }

    method Delete()
      requires Valid() && 0 <= currentSlot
      modifies file
      ensures Valid() && file.blocks == Put(old(file.blocks), Here(), At(old(file.blocks), Here()).(used := false))
    {
      SetUsed(false);
    }

    method GetRow() returns (row: Row)
      requires Valid() && 0 <= currentSlot
      ensures row == At(file.blocks, Here()).row
    {
      row := file.blocks[block][currentSlot].row;
    }

    method SetVal(name: string, v: Constant)
      requires Valid() && 0 <= currentSlot
      modifies file
      ensures Valid()
      ensures var slot := At(old(file.blocks), Here());
              file.blocks == Put(old(file.blocks), Here(), slot.(row := slot.row[name := v]))
    {
      var slot := file.blocks[block][currentSlot];
      file.blocks := file.blocks[block := file.blocks[block][currentSlot := slot.(row := slot.row[name := v])]];
    }
  }
}
