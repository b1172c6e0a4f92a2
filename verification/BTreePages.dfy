/** The pages of a B-tree file, changed in place: sorted records behind a flag and a record count. */
module BTreePages {
  import opened Storage
  import opened LeafTree
  import Bytes

  const INT_SIZE := Bytes.INT_SIZE

  function SlotPosition(slot: nat, slotSize: nat): nat {
    INT_SIZE + INT_SIZE + slot * slotSize
  }

  /** The record count at which a page is full. */
  function FullAt(blockSize: nat, slotSize: nat): nat
    requires slotSize > 0
  {
    if blockSize <= 2 * INT_SIZE then 0 else (blockSize - 2 * INT_SIZE - 1) / slotSize
  }

  function SlotsIn(blockSize: nat, slotSize: nat): nat
    requires slotSize > 0
  {
    if blockSize < 2 * INT_SIZE then 0 else (blockSize - 2 * INT_SIZE) / slotSize
  }

  lemma MulLe(a: nat, b: nat, c: nat)
    requires a <= b
    ensures a * c <= b * c
  {
  }

  /** A quotient is the number of whole divisors. */
  lemma {:induction false} Quotient(a: nat, d: nat, n: nat)
    requires d > 0
    ensures n <= a / d <==> n * d <= a
  {
    var q := a / d;
    assert q * d <= a < q * d + d;
    if n <= q {
      MulLe(n, q, d);
    } else {
      MulLe(q + 1, n, d);
      assert (q + 1) * d == q * d + d;
    }
  }

  /** The test on positions is a test on counts, and a full page is still within its block. */
  lemma {:induction false} FullIff(blockSize: nat, slotSize: nat, n: nat)
    requires slotSize > 0
    ensures SlotPosition(n + 1, slotSize) >= blockSize <==> n >= FullAt(blockSize, slotSize)
    ensures FullAt(blockSize, slotSize) <= SlotsIn(blockSize, slotSize)
  {
    if blockSize > 2 * INT_SIZE {
      var room := blockSize - 2 * INT_SIZE;
      Quotient(room - 1, slotSize, n + 1);
      Quotient(room, slotSize, FullAt(blockSize, slotSize));
      Quotient(room - 1, slotSize, FullAt(blockSize, slotSize));
    }
  }

  /** The slots are those that end within the block. */
  lemma {:induction false} SlotFits(blockSize: nat, slotSize: nat, slot: nat)
    requires slotSize > 0
    ensures slot < SlotsIn(blockSize, slotSize) <==> SlotPosition(slot + 1, slotSize) <= blockSize
  {
    if blockSize >= 2 * INT_SIZE {
      Quotient(blockSize - 2 * INT_SIZE, slotSize, slot + 1);
    }
  }

  class BTreePage {
    const blockSize: nat
    const slotSize: nat
    const slots: array<Rec>
    var flag: int
    var count: nat

    ghost predicate Valid()
      reads this
    {
      slotSize > 0 && slots.Length == SlotsIn(blockSize, slotSize) && count <= slots.Length
    }

    /** The records; the slots from `count` on hold what was last written there. */
    function Recs(): (recs: seq<Rec>)
      requires count <= slots.Length
      reads this, slots
      ensures |recs| == count
    {
      slots[..count]
    }

    function AsLeaf(): Leaf
      requires count <= slots.Length
      reads this, slots
    {
      Leaf(flag, Recs())
    }

    /** AppendNew and Format: no records, and default values in every slot. */
    constructor (blockSize: nat, slotSize: nat, flag: int)
      requires slotSize > 0
      ensures this.blockSize == blockSize && this.slotSize == slotSize && fresh(slots)
      ensures Valid() && AsLeaf() == Leaf(flag, [])
      ensures forall i :: 0 <= i < slots.Length ==> slots[i] == Rec(0, 0, 0)
    {
      this.blockSize, this.slotSize := blockSize, slotSize;
      slots := new Rec[SlotsIn(blockSize, slotSize)](_ => Rec(0, 0, 0));
      this.flag, count := flag, 0;
    }

    method IsFull() returns (full: bool)
      requires Valid()
      ensures full <==> count >= FullAt(blockSize, slotSize)
    {
      FullIff(blockSize, slotSize, count);
      full := SlotPosition(count + 1, slotSize) >= blockSize;
    }

    method FindSlotBefore(key: int) returns (before: int)
      requires Valid()
      ensures before == SlotBefore(Recs(), key)
    {
      var slot := 0;
      while slot < count && slots[slot].key < key
        invariant slot <= count && forall i :: 0 <= i < slot ==> slots[i].key < key
      {
        slot := slot + 1;
      }
      SlotIs(Recs(), key, slot - 1);
      return slot - 1;
    }

    method CopyRecord(from: nat, to: nat)
      requires from < slots.Length && to < slots.Length
      modifies slots
      ensures slots[..] == old(slots[..])[to := old(slots[from])]
    {
      slots[to] := slots[from];
    }

    /** Make room at a slot; what the slot holds is still the record that was there. */
    method Insert(slot: nat)
      requires Valid() && slot <= count < slots.Length
      modifies this`count, slots
      ensures count == old(count) + 1
      ensures forall i :: 0 <= i < slots.Length ==>
        slots[i] == if slot < i <= old(count) then old(slots[i - 1]) else old(slots[i])
    {
      var i := count;
      while i > slot
        invariant slot <= i <= count == old(count)
        invariant forall j :: 0 <= j < slots.Length ==>
          slots[j] == if i < j <= count then old(slots[j - 1]) else old(slots[j])
      {
        CopyRecord(i - 1, i);
        i := i - 1;
      }
      count := count + 1;
    }

    /** InsertLeaf and InsertDirectory. */
    method InsertRecord(slot: nat, rec: Rec)
      requires Valid() && slot <= count < slots.Length
      modifies this`count, slots
      ensures Valid() && Recs() == InsertAt(old(Recs()), slot, rec)
      ensures forall i :: count <= i < slots.Length ==> slots[i] == old(slots[i])
    {
      Insert(slot);
      slots[slot] := rec;
    }

    /** The last record stays behind in its slot. */
    method Delete(slot: nat)
      requires Valid() && slot < count
      modifies this`count, slots
      ensures Valid() && Recs() == DeleteAt(old(Recs()), slot)
      ensures forall i :: count <= i < slots.Length ==> slots[i] == old(slots[i])
    {
      var i := slot + 1;
      while i < count
        invariant slot < i <= count == old(count)
        invariant forall j :: 0 <= j < slots.Length ==>
          slots[j] == if slot <= j < i - 1 then old(slots[j + 1]) else old(slots[j])
      {
        CopyRecord(i, i - 1);
        i := i + 1;
      }
      count := count - 1;
    }

    /** Move the records from a slot on to the front of another page; copies of the last one stay behind. */
    method TransferRecords(slot: nat, dest: BTreePage)
      requires Valid() && dest.Valid() && slot <= count && dest != this && dest.slots != slots
      requires dest.count + (count - slot) <= dest.slots.Length
      modifies this`count, slots, dest`count, dest.slots
      ensures Valid() && dest.Valid()
      ensures Recs() == old(Recs())[..slot] && dest.Recs() == old(Recs())[slot..] + old(dest.Recs())
      ensures Stale(slots[..], old(slots[..]), old(count), slot)
      ensures dest.count <= |dest.slots[..]| && dest.slots[..][dest.count..] == old(dest.slots[..])[dest.count..]
    {
      var destSlot := 0;
      ghost var was, n, others, behind := slots[..], count, dest.Recs(), dest.slots[..];
      TransferStart(was, n, others, slot);
      hide InsertAt, DeleteAt, SlotsIn;
      while slot < count
        invariant Valid() && dest.Valid() && slot <= count && destSlot + count == n
        invariant destSlot <= dest.count && dest.count + (count - slot) <= dest.slots.Length
        invariant Transferring(was, n, others, slot, destSlot, slots[..], count, dest.Recs())
        invariant dest.slots[..][dest.count..] == behind[dest.count..]
        decreases count
      {
        hide Transferring;
        ghost var all, to := slots[..], dest.Recs();
        ShorterTail(dest.slots[..], behind, dest.count);
        TransferOne(slot, dest, destSlot);
        TransferStep(was, n, others, slot, destSlot, all, count + 1, to, slots[..], dest.Recs());
        destSlot := destSlot + 1;
      }
      hide Transferring;
      TransferEnd(was, n, others, slot, destSlot, slots[..], count, dest.Recs());
    }

    method TransferOne(slot: nat, dest: BTreePage, destSlot: nat)
      requires Valid() && dest.Valid() && slot < count && dest != this && dest.slots != slots
      requires destSlot <= dest.count < dest.slots.Length
      modifies this`count, slots, dest`count, dest.slots
      ensures Valid() && dest.Valid()
      ensures slots[..count] == DeleteAt(old(slots[..count]), slot)
      ensures dest.Recs() == InsertAt(old(dest.Recs()), destSlot, old(slots[..count])[slot])
      ensures count == old(count) - 1 && dest.count == old(dest.count) + 1
      ensures slots[count..] == old(slots[..])[count..]
      ensures dest.slots[..][dest.count..] == old(dest.slots[..])[dest.count..]
    {
      dest.InsertRecord(destSlot, slots[slot]);
      Delete(slot);
    }
  }

  /** After the last of `n` records moved out, its copies fill the slots behind those that are left. */
  ghost predicate Stale(all: seq<Rec>, was: seq<Rec>, n: nat, count: nat) {
    |all| == |was| && n <= |was| &&
    forall i :: count <= i < |was| ==> all[i] == if i < n then was[n - 1] else was[i]
  }

  /** In the middle of a transfer: `k` of the records from `slot` on have been moved. */
  ghost predicate Transferring(was: seq<Rec>, n: nat, others: seq<Rec>, slot: nat, k: nat, all: seq<Rec>, count: nat,
                               dest: seq<Rec>)
  {
    && slot <= count <= n <= |was| && count + k == n
    && Stale(all, was, n, count)
    && all[..count] == was[..slot] + was[slot + k..n]
    && dest == was[slot..slot + k] + others
  }

  lemma ShorterTail(a: seq<Rec>, b: seq<Rec>, i: nat)
    requires i < |a| == |b| && a[i..] == b[i..]
    ensures a[i + 1..] == b[i + 1..]
  {
    assert a[i + 1..] == a[i..][1..] && b[i + 1..] == b[i..][1..];
  }

  lemma {:induction false} TransferStart(was: seq<Rec>, n: nat, others: seq<Rec>, slot: nat)
    requires slot <= n <= |was|
    ensures Transferring(was, n, others, slot, 0, was, n, others)
  {
  }

  lemma {:induction false} TransferEnd(was: seq<Rec>, n: nat, others: seq<Rec>, slot: nat, k: nat, all: seq<Rec>,
                                       count: nat, dest: seq<Rec>)
    requires Transferring(was, n, others, slot, k, all, count, dest) && slot == count
    ensures n <= |was| && all[..slot] == was[..n][..slot] && dest == was[..n][slot..] + others
    ensures Stale(all, was, n, slot)
  {
  }

  lemma {:induction false} TransferStep(was: seq<Rec>, n: nat, others: seq<Rec>, slot: nat, k: nat, all: seq<Rec>,
                                        count: nat, dest: seq<Rec>, all': seq<Rec>, dest': seq<Rec>)
    requires Transferring(was, n, others, slot, k, all, count, dest) && slot < count && k <= |dest|
    requires |all'| == |all| && all'[..count - 1] == DeleteAt(all[..count], slot)
    requires all'[count - 1..] == all[count - 1..]
    requires dest' == InsertAt(dest, k, all[..count][slot])
    ensures Transferring(was, n, others, slot, k + 1, all', count - 1, dest')
  {
    assert all[..count][slot] == was[slot + k];
    assert all[count - 1] == all[..count][count - 1] == was[n - 1];
    forall i | count - 1 <= i < |was| ensures all'[i] == if i < n then was[n - 1] else was[i] {
      assert all'[i] == all'[count - 1..][i - (count - 1)] && all[i] == all[count - 1..][i - (count - 1)];
    }
    assert DeleteAt(all[..count], slot) == was[..slot] + was[slot + k + 1..n];
  }
}
