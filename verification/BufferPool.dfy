/** The buffers, the pool that hands them out, and the transactions' lists of pinned buffers. */
module BufferPool {
  import opened Storage
  import LogBytes

  /** What one buffer holds. */
  datatype Slot = Slot(block: Option<BlockId>, page: Page, pins: int, txn: int, lsn: int) {
    predicate Has(b: BlockId) {
      block == Some(b)
    }

    /** A buffer without changes shows its block as it is on disk; an unassigned one has none. */
    ghost predicate Ok(disk: Disk) {
      && 0 <= pins
      && (block.None? ==> txn < 0 && pins == 0)
      && (block.Some? && txn < 0 ==> page == ReadBlock(disk, block.value))
    }

    function Changed(f: Field, v: Value, t: int, lsn: int): Slot {
      this.(page := page[f := v], txn := t, lsn := if lsn >= 0 then lsn else this.lsn)
    }

    function WrittenTo(disk: Disk): Disk {
      if txn >= 0 && block.Some? then disk[block.value := page] else disk
    }

    /** Given to a block of the disk; the LSN of the former page stays. */
    function GivenTo(b: BlockId, disk: Disk): Slot {
      Slot(Some(b), ReadBlock(disk, b), 0, if txn >= 0 then -1 else txn, lsn)
    }
  }

  // ---- the pool as a value ----

  /** The index of the buffer that holds a block, or the number of buffers. */
  function Find(slots: seq<Slot>, b: BlockId): (i: nat)
    ensures i <= |slots|
    ensures i < |slots| ==> slots[i].Has(b)
    ensures forall j :: 0 <= j < i ==> !slots[j].Has(b)
  {
    if slots == [] then 0 else if slots[0].Has(b) then 0 else 1 + Find(slots[1..], b)
  }

  /** A block as seen through the pool. */
  function View(slots: seq<Slot>, disk: Disk, b: BlockId): Page {
    var i := Find(slots, b);
    if i < |slots| then slots[i].page else ReadBlock(disk, b)
  }

  ghost predicate SameView(slots: seq<Slot>, disk: Disk, slots': seq<Slot>, disk': Disk) {
    forall b: BlockId :: View(slots', disk', b) == View(slots, disk, b)
  }

  /** No block is in two buffers. */
  ghost predicate NoTwice(slots: seq<Slot>) {
    forall i, j :: 0 <= i < j < |slots| && slots[i].block.Some? ==> slots[i].block != slots[j].block
  }

  function Unpinned(slots: seq<Slot>): nat {
    if slots == [] then 0 else (if slots[0].pins == 0 then 1 else 0) + Unpinned(slots[1..])
  }

  /** The pins of each buffer list, and their sum for a block. */
  type Lists = seq<map<BlockId, nat>>

  function CountIn(counts: map<BlockId, nat>, b: BlockId): nat {
    if b in counts then counts[b] else 0
  }

  function Total(lists: Lists, b: BlockId): nat {
    if lists == [] then 0 else CountIn(lists[0], b) + Total(lists[1..], b)
  }

  function SlotPins(lists: Lists, s: Slot): nat {
    if s.block.Some? then Total(lists, s.block.value) else 0
  }

  ghost predicate PinsOk(slots: seq<Slot>, lists: Lists) {
    && (forall i :: 0 <= i < |slots| ==> slots[i].pins == SlotPins(lists, slots[i]))
    && (forall b: BlockId :: Total(lists, b) > 0 ==> Find(slots, b) < |slots|)
  }

  ghost predicate PoolOk(slots: seq<Slot>, disk: Disk) {
    NoTwice(slots) && forall i :: 0 <= i < |slots| ==> slots[i].Ok(disk)
  }

  ghost predicate Sound(slots: seq<Slot>, disk: Disk, lists: Lists, available: int) {
    PoolOk(slots, disk) && PinsOk(slots, lists) && available == Unpinned(slots)
  }

  datatype PoolState = PoolState(slots: seq<Slot>, disk: Disk, lists: Lists)

  /** A request for a block fails exactly when no buffer holds it and all are pinned, and then changes nothing.
      Otherwise the list `who` has one more pin, no view changes, and what is pinned stays where it is. */
  ghost predicate PinDone(was: PoolState, now: PoolState, who: nat, b: BlockId, ok: bool)
    requires who < |was.lists|
  {
    && (ok <==> Find(was.slots, b) < |was.slots| || Unpinned(was.slots) > 0)
    && (!ok ==> now == was)
    && (ok ==> now.lists == was.lists[who := MorePins(was.lists[who], b)])
    && SameView(was.slots, was.disk, now.slots, now.disk)
    && KeepsPinned(was.slots, now.slots)
  }

  /** One pin fewer for the list, and nothing but pin counts changes. */
  ghost predicate UnpinDone(was: PoolState, now: PoolState, who: nat, b: BlockId)
    requires who < |was.lists| && CountIn(was.lists[who], b) > 0
  {
    && now.lists == was.lists[who := FewerPins(was.lists[who], b)]
    && SameView(was.slots, was.disk, now.slots, now.disk)
    && OnlyPins(was.slots, now.slots) && now.disk == was.disk
  }

  // ---- one buffer changes ----

  lemma {:induction false} FindAt(slots: seq<Slot>, i: nat, b: BlockId)
    requires NoTwice(slots) && i < |slots| && slots[i].Has(b)
    ensures Find(slots, b) == i
  {
    assert forall j :: 0 <= j < i ==> slots[j].block != slots[i].block;
  }

  /** A buffer that keeps its block, with the same page, leaves every other view as it is. */
  lemma {:induction false} SameBlockView(slots: seq<Slot>, disk: Disk, i: nat, s: Slot, disk': Disk, b: BlockId)
    requires NoTwice(slots) && i < |slots| && s.block == slots[i].block
    requires forall c: BlockId :: !s.Has(c) ==> ReadBlock(disk', c) == ReadBlock(disk, c)
    ensures NoTwice(slots[i := s])
    ensures Find(slots[i := s], b) == Find(slots, b)
    ensures View(slots[i := s], disk', b) == if s.Has(b) then s.page else View(slots, disk, b)
  {
    var slots' := slots[i := s];
    var k := Find(slots, b);
    if k < |slots| {
      FindAt(slots', k, b);
    } else {
      assert forall j :: 0 <= j < |slots| ==> !slots'[j].Has(b);
    }
    if s.Has(b) {
      FindAt(slots, i, b);
    }
  }

  /** Writing a buffer out changes no view. */
  lemma {:induction false} FlushKeepsView(slots: seq<Slot>, disk: Disk, i: nat)
    requires PoolOk(slots, disk) && i < |slots| && slots[i].txn >= 0
    ensures PoolOk(slots[i := slots[i].(txn := -1)], slots[i].WrittenTo(disk))
    ensures SameView(slots, disk, slots[i := slots[i].(txn := -1)], slots[i].WrittenTo(disk))
  {
    var s := slots[i].(txn := -1);
    var slots' := slots[i := s];
    var disk' := slots[i].WrittenTo(disk);
    assert slots[i].Ok(disk);
    forall j | 0 <= j < |slots| ensures slots'[j].Ok(disk') {
      assert slots[j].Ok(disk);
    }
    forall b: BlockId ensures View(slots', disk', b) == View(slots, disk, b) {
      SameBlockView(slots, disk, i, s, disk', b);
      if s.Has(b) {
        FindAt(slots, i, b);
      }
    }
    assert NoTwice(slots');
  }

  /** A clean buffer may be given to a block that no buffer holds. */
  lemma {:induction false} AssignKeepsView(slots: seq<Slot>, disk: Disk, i: nat, s: Slot, b: BlockId)
    requires PoolOk(slots, disk) && i < |slots| && slots[i].txn < 0
    requires Find(slots, b) == |slots|
    requires s.Has(b) && s.page == ReadBlock(disk, b) && s.Ok(disk)
    ensures PoolOk(slots[i := s], disk) && SameView(slots, disk, slots[i := s], disk)
    ensures Find(slots[i := s], b) == i
  {
    var slots' := slots[i := s];
    assert NoTwice(slots');
    FindAt(slots', i, b);
    forall c: BlockId ensures View(slots', disk, c) == View(slots, disk, c) {
      AssignedView(slots, disk, i, s, b, c);
    }
  }

  lemma {:induction false} AssignedView(slots: seq<Slot>, disk: Disk, i: nat, s: Slot, b: BlockId, c: BlockId)
    requires PoolOk(slots, disk) && i < |slots| && slots[i].txn < 0
    requires Find(slots, b) == |slots| && NoTwice(slots[i := s])
    requires s.Has(b) && s.page == ReadBlock(disk, b)
    ensures View(slots[i := s], disk, c) == View(slots, disk, c)
    ensures c != b && !slots[i].Has(c) ==> (Find(slots[i := s], c) < |slots| <==> Find(slots, c) < |slots|)
  {
    var slots' := slots[i := s];
    var k := Find(slots, c);
    if c == b {
      FindAt(slots', i, b);
    } else if slots[i].Has(c) {
      FindAt(slots, i, c);
      assert slots[i].Ok(disk);
      assert forall j :: 0 <= j < |slots| ==> !slots'[j].Has(c);
    } else if k < |slots| {
      FindAt(slots', k, c);
    } else {
      assert forall j :: 0 <= j < |slots| ==> !slots'[j].Has(c);
    }
  }

  // ---- the counts ----

  lemma {:induction false} UnpinnedUpdate(slots: seq<Slot>, i: nat, s: Slot)
    requires i < |slots|
    ensures Unpinned(slots[i := s]) ==
            Unpinned(slots) - (if slots[i].pins == 0 then 1 else 0) + (if s.pins == 0 then 1 else 0)
  {
    if i > 0 {
      assert slots[i := s][1..] == slots[1..][i - 1 := s];
      UnpinnedUpdate(slots[1..], i - 1, s);
    } else {
      assert slots[i := s][1..] == slots[1..];
    }
  }

  lemma {:induction false} TotalUpdate(lists: Lists, who: nat, counts: map<BlockId, nat>, b: BlockId)
    requires who < |lists|
    ensures Total(lists[who := counts], b) == Total(lists, b) - CountIn(lists[who], b) + CountIn(counts, b)
    ensures Total(lists, b) >= CountIn(lists[who], b)
  {
    if who > 0 {
      assert lists[who := counts][1..] == lists[1..][who - 1 := counts];
      TotalUpdate(lists[1..], who - 1, counts, b);
    } else {
      assert lists[who := counts][1..] == lists[1..];
    }
  }

  lemma {:induction false} NoneUnpinned(slots: seq<Slot>)
    requires forall i :: 0 <= i < |slots| ==> slots[i].pins != 0
    ensures Unpinned(slots) == 0
  {
    if slots != [] {
      NoneUnpinned(slots[1..]);
    }
  }

  // ---- pinning and unpinning ----

  function MorePins(counts: map<BlockId, nat>, b: BlockId): map<BlockId, nat> {
    counts[b := CountIn(counts, b) + 1]
  }

  function FewerPins(counts: map<BlockId, nat>, b: BlockId): map<BlockId, nat>
    requires CountIn(counts, b) > 0
  {
    if counts[b] == 1 then counts - {b} else counts[b := counts[b] - 1]
  }

  /** A pin count that moves together with one list's count stays the sum of the lists. */
  lemma {:induction false} PinsMove(slots: seq<Slot>, lists: Lists, i: nat, s: Slot, who: nat, counts: map<BlockId, nat>,
                                    b: BlockId)
    requires NoTwice(slots) && PinsOk(slots, lists) && i < |slots| && who < |lists|
    requires slots[i].Has(b) && s.Has(b)
    requires forall c: BlockId :: c != b ==> CountIn(counts, c) == CountIn(lists[who], c)
    requires s.pins - slots[i].pins == CountIn(counts, b) - CountIn(lists[who], b)
    ensures PinsOk(slots[i := s], lists[who := counts])
  {
    var slots', lists' := slots[i := s], lists[who := counts];
    forall j | 0 <= j < |slots'| ensures slots'[j].pins == SlotPins(lists', slots'[j]) {
      assert slots[j].pins == SlotPins(lists, slots[j]);
      if slots[j].block.Some? {
        TotalUpdate(lists, who, counts, slots[j].block.value);
        if j != i && slots[j].Has(b) {
          FindAt(slots, i, b);
          FindAt(slots, j, b);
        }
      }
    }
    forall c: BlockId | Total(lists', c) > 0 ensures Find(slots', c) < |slots'| {
      TotalUpdate(lists, who, counts, c);
      var k := if c == b then i else Find(slots, c);
      assert slots'[k].Has(c);
    }
  }

  /** Only an unpinned buffer is given to another block, so the sums stay right. */
  lemma {:induction false} PinsAssigned(slots: seq<Slot>, disk: Disk, lists: Lists, i: nat, s: Slot, b: BlockId)
    requires PoolOk(slots, disk) && PinsOk(slots, lists) && i < |slots| && slots[i].pins == 0 && slots[i].txn < 0
    requires Find(slots, b) == |slots| && s.Has(b) && s.pins == 0
    ensures PinsOk(slots[i := s], lists)
  {
    var slots' := slots[i := s];
    assert Total(lists, b) == 0;
    forall j | 0 <= j < |slots'| ensures slots'[j].pins == SlotPins(lists, slots'[j]) {
      assert slots[j].pins == SlotPins(lists, slots[j]);
    }
    forall c: BlockId | Total(lists, c) > 0 ensures Find(slots', c) < |slots'| {
      var k := Find(slots, c);
      assert slots[i].pins == SlotPins(lists, slots[i]);
      assert slots'[k].Has(c);
    }
  }

  lemma {:induction false} PinsSame(slots: seq<Slot>, slots': seq<Slot>, lists: Lists)
    requires PinsOk(slots, lists) && |slots'| == |slots|
    requires forall i :: 0 <= i < |slots| ==> slots'[i].pins == slots[i].pins && slots'[i].block == slots[i].block
    ensures PinsOk(slots', lists)
  {
    forall j | 0 <= j < |slots'| ensures slots'[j].pins == SlotPins(lists, slots'[j]) {
      assert slots[j].pins == SlotPins(lists, slots[j]);
    }
    forall c: BlockId | Total(lists, c) > 0 ensures Find(slots', c) < |slots'| {
      assert slots'[Find(slots, c)].Has(c);
    }
  }

  // ---- what the pool does, one buffer at a time ----

  /** What the pool does with one buffer. Unpinned buffers only are given to other blocks. */
  datatype PoolOp = Write(i: nat) | Give(i: nat, b: BlockId) | CountPins(i: nat, pins: nat)

  predicate CanDo(slots: seq<Slot>, op: PoolOp) {
    op.i < |slots| &&
    match op
    case Write(_) => true
    case Give(i, b) => slots[i].pins == 0 && Find(slots, b) == |slots|
    case CountPins(i, _) => slots[i].block.Some?
  }

  function Do(slots: seq<Slot>, disk: Disk, op: PoolOp): (seq<Slot>, Disk)
    requires CanDo(slots, op)
  {
    match op
    case Write(i) => (Flushed(slots, i), slots[i].WrittenTo(disk))
    case Give(i, b) =>
      var disk' := slots[i].WrittenTo(disk);
      (slots[i := slots[i].GivenTo(b, disk')], disk')
    case CountPins(i, pins) => (WithPins(slots, i, pins), disk)
  }

  ghost predicate CanRun(slots: seq<Slot>, disk: Disk, ops: seq<PoolOp>)
    decreases |ops|
  {
    ops == [] ||
    (CanDo(slots, ops[0]) && var (slots', disk') := Do(slots, disk, ops[0]); CanRun(slots', disk', ops[1..]))
  }

  ghost function RunPool(slots: seq<Slot>, disk: Disk, ops: seq<PoolOp>): (seq<Slot>, Disk)
    requires CanRun(slots, disk, ops)
    decreases |ops|
  {
    if ops == [] then (slots, disk)
    else
      var (slots', disk') := Do(slots, disk, ops[0]);
      RunPool(slots', disk', ops[1..])
  }

  ghost predicate Runs(was: PoolState, ops: seq<PoolOp>, now: PoolState) {
    CanRun(was.slots, was.disk, ops) && RunPool(was.slots, was.disk, ops) == (now.slots, now.disk)
  }

  lemma {:induction false} RunsThen(was: PoolState, ops: seq<PoolOp>, mid: PoolState, op: PoolOp, now: PoolState)
    requires Runs(was, ops, mid) && CanDo(mid.slots, op) && Do(mid.slots, mid.disk, op) == (now.slots, now.disk)
    ensures Runs(was, ops + [op], now)
    decreases |ops|
  {
    hide Do, CanDo;
    if ops == [] {
      assert [op][1..] == [] && [] + [op] == [op] && was.slots == mid.slots && was.disk == mid.disk;
      assert CanRun(now.slots, now.disk, []) && RunPool(now.slots, now.disk, []) == (now.slots, now.disk);
    } else {
      var (slots', disk') := Do(was.slots, was.disk, ops[0]);
      RunsThen(PoolState(slots', disk', was.lists), ops[1..], mid, op, now);
      assert (ops + [op])[1..] == ops[1..] + [op];
    }
  }

  lemma {:induction false} OneRun(was: PoolState, op: PoolOp, now: PoolState)
    requires CanDo(was.slots, op) && Do(was.slots, was.disk, op) == (now.slots, now.disk)
    ensures Runs(was, [op], now)
  {
    assert [] + [op] == [op];
    RunsThen(was, [], was, op, now);
  }

  /** FlushAll: the buffers of the transaction, in order. */
  function FlushOps(slots: seq<Slot>, n: nat, t: int): seq<PoolOp>
    requires n <= |slots|
  {
    if n == 0 then [] else FlushOps(slots, n - 1, t) + if slots[n - 1].txn == t then [Write(n - 1)] else []
  }

  /** TryToPin: the block's buffer, or one that is given to it. */
  function PinOps(slots: seq<Slot>, b: BlockId, i: nat): seq<PoolOp>
    requires i < |slots|
  {
    if slots[i].Has(b) then [CountPins(i, if slots[i].pins >= 0 then slots[i].pins + 1 else 0)]
    else [Give(i, b), CountPins(i, 1)]
  }

  // ---- the code ----

  class FileManager {
    var disk: Disk

    constructor (disk: Disk)
      ensures this.disk == disk
    {
      this.disk := disk;
    }

    method Read(b: BlockId) returns (p: Page)
      ensures p == ReadBlock(disk, b)
    {
      p := ReadBlock(disk, b);
    }

    method Write(b: BlockId, p: Page)
      modifies this
      ensures disk == old(disk)[b := p]
    {
      disk := disk[b := p];
    }
  }

  class Buffer {
    const files: FileManager
    const log: LogBytes.LogManager
    var contents: Page
    var block: Option<BlockId>
    var pinCount: int
    var txnId: int
    var lsn: int

    ghost function AsSlot(): Slot
      reads this
    {
      Slot(block, contents, pinCount, txnId, lsn)
    }

    constructor (files: FileManager, log: LogBytes.LogManager)
      ensures this.files == files && this.log == log && AsSlot() == Slot(None, map[], 0, -1, -1)
    {
      this.files, this.log := files, log;
      contents, block, pinCount, txnId, lsn := map[], None, 0, -1, -1;
    }

    method SetModified(txnId: int, lsn: int)
      modifies this`txnId, this`lsn
      ensures AsSlot() == old(AsSlot()).(txn := txnId, lsn := if lsn >= 0 then lsn else old(this.lsn))
    {
      this.txnId := txnId;
      if lsn >= 0 {
        this.lsn := lsn;
      }
    }

    predicate IsPinned()
      reads this
    {
      pinCount > 0
    }

    /** The log up to the last change of the page, then the page. */
    method Flush()
      requires log.Valid() && (txnId >= 0 ==> block.Some?)
      modifies this`txnId, files, log`savedLsn, log.file
      ensures log.Valid() && log.Log() == old(log.Log())
      ensures old(txnId) >= 0 && lsn <= log.latestLsn ==> lsn <= log.savedLsn
      ensures AsSlot() == if old(txnId) >= 0 then old(AsSlot()).(txn := -1) else old(AsSlot())
      ensures files.disk == old(AsSlot()).WrittenTo(old(files.disk))
    {
      if txnId >= 0 {
        log.Flush(lsn);
        files.Write(block.value, contents);
        txnId := -1;
      }
    }

    /** The LSN of the former page stays. */
    method AssignToBlock(b: BlockId)
      requires log.Valid() && (txnId >= 0 ==> block.Some?)
      modifies this, files, log`savedLsn, log.file
      ensures log.Valid() && log.Log() == old(log.Log())
      ensures old(txnId) >= 0 && lsn <= log.latestLsn ==> lsn <= log.savedLsn
      ensures files.disk == old(AsSlot()).WrittenTo(old(files.disk))
      ensures AsSlot() == old(AsSlot()).GivenTo(b, files.disk)
    {
      Flush();
      block := Some(b);
      contents := files.Read(b);
      pinCount := 0;
    }

    method Pin()
      modifies this`pinCount
      ensures AsSlot() == old(AsSlot()).(pins := old(pinCount) + 1)
    {
      pinCount := pinCount + 1;
    }

    method Unpin()
      modifies this`pinCount
      ensures AsSlot() == old(AsSlot()).(pins := old(pinCount) - 1)
    {
      pinCount := pinCount - 1;
    }
  }

  class BufferManager {
    const files: FileManager
    const log: LogBytes.LogManager
    const pool: seq<Buffer>
    ghost const owned: set<Buffer>
    var numAvailable: int
    ghost var lists: Lists

    ghost function Slots(): (slots: seq<Slot>)
      requires Wired()
      reads owned
      ensures |slots| == |pool|
      ensures forall i :: 0 <= i < |pool| ==> slots[i] == pool[i].AsSlot()
    {
      seq(|pool|, i requires 0 <= i < |pool| reads owned => pool[i].AsSlot())
    }

    /** The wiring, which never changes. */
    ghost predicate Wired() {
      && (forall i :: 0 <= i < |pool| ==> pool[i].files == files && pool[i].log == log)
      && (forall i, j :: 0 <= i < j < |pool| ==> pool[i] != pool[j])
      && (forall i :: 0 <= i < |pool| ==> pool[i] in owned)
    }

    ghost predicate Valid()
      reads this, owned, files, log, log.file, log.page
    {
      && Wired() && log.Valid()
      && Sound(Slots(), files.disk, lists, numAvailable)
    }

    ghost function State(): PoolState
      requires Wired()
      reads this, owned, files
    {
      PoolState(Slots(), files.disk, lists)
    }

    /** What a reader of the block finds. */
    ghost function Seen(b: BlockId): Page
      requires Wired()
      reads owned, files
    {
      View(Slots(), files.disk, b)
    }

    constructor (files: FileManager, log: LogBytes.LogManager, numBuffs: nat, ghost numLists: nat)
      requires log.Valid()
      ensures this.files == files && this.log == log && |pool| == numBuffs && fresh(owned) && Valid()
      ensures numAvailable == numBuffs && lists == seq(numLists, _ => map[])
      ensures forall b: BlockId :: Seen(b) == ReadBlock(files.disk, b)
    {
      var buffers: seq<Buffer> := [];
      while |buffers| < numBuffs
        invariant |buffers| <= numBuffs && fresh(buffers)
        invariant forall i :: 0 <= i < |buffers| ==> buffers[i].files == files && buffers[i].log == log
        invariant forall i :: 0 <= i < |buffers| ==> buffers[i].AsSlot() == Slot(None, map[], 0, -1, -1)
        invariant forall i, j :: 0 <= i < j < |buffers| ==> buffers[i] != buffers[j]
      {
        var buffer := new Buffer(files, log);
        buffers := buffers + [buffer];
      }
      this.files, this.log, pool := files, log, buffers;
      owned := set buffer | buffer in buffers;
      numAvailable := numBuffs;
      lists := seq(numLists, _ => map[]);
      new;
      NewPool(Slots(), files.disk, lists);
    }

    method Available() returns (n: int)
      requires Valid()
      ensures n == Unpinned(Slots())
    {
      n := numAvailable;
    }

    method FindExistingBuffer(b: BlockId) returns (i: nat)
      requires Valid()
      ensures i == Find(Slots(), b)
    {
      i := 0;
      while i < |pool|
        invariant i <= |pool| && forall j :: 0 <= j < i ==> !Slots()[j].Has(b)
      {
        if pool[i].block == Some(b) {
          break;
        }
        i := i + 1;
      }
      FirstFound(Slots(), i, b);
    }

    method ChooseUnpinnedBuffer() returns (i: nat)
      requires Valid()
      ensures i <= |pool|
      ensures if i < |pool| then Slots()[i].pins == 0 else Unpinned(Slots()) == 0
    {
      i := 0;
      while i < |pool|
        invariant i <= |pool| && forall j :: 0 <= j < i ==> Slots()[j].pins != 0
      {
        assert Slots()[i].Ok(files.disk);
        if !pool[i].IsPinned() {
          return;
        }
        i := i + 1;
      }
      NoneUnpinned(Slots());
    }

    method PinAt(i: nat)
      requires Wired() && i < |pool|
      modifies pool[i]
      ensures Slots() == WithPins(old(Slots()), i, old(Slots())[i].pins + 1)
    {
      pool[i].Pin();
    }

    method UnpinOne(buffer: Buffer, ghost i: nat)
      requires Wired() && i < |pool| && pool[i] == buffer
      modifies buffer
      ensures Slots() == WithPins(old(Slots()), i, old(Slots())[i].pins - 1)
    {
      buffer.Unpin();
    }

    /** A transaction changes a page that it has pinned, and says so. */
    method ChangeOne(buffer: Buffer, ghost i: nat, f: Field, v: Value, t: int, lsn: int)
      requires Wired() && i < |pool| && pool[i] == buffer
      modifies buffer
      ensures Slots() == old(Slots())[i := old(Slots())[i].Changed(f, v, t, lsn)]
    {
      buffer.contents := buffer.contents[f := v];
      buffer.SetModified(t, lsn);
    }

    method WriteAt(i: nat)
      requires Wired() && i < |pool| && log.Valid() && (Slots()[i].txn >= 0 ==> Slots()[i].block.Some?)
      modifies pool[i], files, log`savedLsn, log.file
      ensures log.Valid() && log.Log() == old(log.Log())
      ensures Slots() == Flushed(old(Slots()), i) && files.disk == old(Slots()[i]).WrittenTo(old(files.disk))
      ensures old(pool[i].txnId) >= 0 && pool[i].lsn <= log.latestLsn ==> pool[i].lsn <= log.savedLsn
    {
      pool[i].Flush();
    }

    /** Write out one buffer: no view changes. */
    method FlushBuffer(i: nat)
      requires Valid() && i < |pool|
      modifies pool[i], files, log`savedLsn, log.file
      ensures Valid() && log.Log() == old(log.Log())
      ensures SameView(old(Slots()), old(files.disk), Slots(), files.disk)
      ensures Slots() == Flushed(old(Slots()), i) && files.disk == old(Slots()[i]).WrittenTo(old(files.disk))
      ensures old(pool[i].txnId) >= 0 && pool[i].lsn <= log.latestLsn ==> pool[i].lsn <= log.savedLsn
    {
      FlushSound(Slots(), files.disk, lists, numAvailable, i);
      WriteAt(i);
    }

    /** Write out the buffers that the transaction changed, and no others. */
    method FlushAll(t: int)
      requires Valid() && t >= 0
      modifies owned, files, log`savedLsn, log.file
      ensures Valid() && log.Log() == old(log.Log())
      ensures FlushDone(old(State()), State(), |pool|, t)
    {
      var i := 0;
      SlotCount();
      hide *;
      while i < |pool|
        invariant i <= |pool| && Valid() && log.Log() == old(log.Log()) && FlushDone(old(State()), State(), i, t)
      {
        ghost var mid := State();
        FlushOwned(i, t);
        FlushDoneStep(old(State()), mid, State(), i, t);
        i := i + 1;
      }
    }

    lemma SlotCount()
      requires Wired()
      ensures |State().slots| == |pool| && forall t :: FlushDone(State(), State(), 0, t)
    {
    }

    /** Write out the buffer if the transaction changed it. */
    method FlushOwned(i: nat, t: int)
      requires Valid() && i < |pool| && t >= 0
      modifies owned, files, log`savedLsn, log.file
      ensures Valid() && log.Log() == old(log.Log()) && i < |old(State()).slots|
      ensures OneFlushed(old(State()), State(), i, t)
    {
      if pool[i].txnId == t {
        FlushBuffer(i);
      }
    }

    /** Give an unpinned buffer to a block that no buffer holds. */
    method Reassign(i: nat, b: BlockId)
      requires Valid() && i < |pool| && Slots()[i].pins == 0 && Find(Slots(), b) == |pool|
      modifies pool[i], files, log`savedLsn, log.file
      ensures Valid() && log.Log() == old(log.Log())
      ensures SameView(old(Slots()), old(files.disk), Slots(), files.disk)
      ensures files.disk == old(Slots()[i]).WrittenTo(old(files.disk))
      ensures Slots() == old(Slots())[i := old(Slots())[i].GivenTo(b, files.disk)] && Find(Slots(), b) == i
      ensures old(pool[i].txnId) >= 0 && pool[i].lsn <= log.latestLsn ==> pool[i].lsn <= log.savedLsn
    {
      ghost var before, disk := Slots(), files.disk;
      assert before[i].Ok(disk);
      pool[i].AssignToBlock(b);
      ghost var s := Slots()[i];
      assert Slots() == before[i := s];
      ReassignSound(before, disk, lists, numAvailable, i, s, b, files.disk);
    }

    /** The buffer of the block, or an unpinned buffer that is given to it. */
    method Obtain(b: BlockId) returns (i: nat)
      requires Valid()
      modifies owned, files, log`savedLsn, log.file
      ensures Valid() && log.Log() == old(log.Log())
      ensures ObtainDone(old(State()), State(), b, i) && ObtainRuns(old(State()), State(), b, i)
    {
      i := FindExistingBuffer(b);
      if i == |pool| {
        i := ChooseUnpinnedBuffer();
        if i < |pool| {
          GiveBuffer(i, b);
          return;
        }
      }
      Kept(State(), b, i);
    }

    method GiveBuffer(i: nat, b: BlockId)
      requires Valid() && i < |pool| && Slots()[i].pins == 0 && Find(Slots(), b) == |pool|
      modifies pool[i], files, log`savedLsn, log.file
      ensures Valid() && log.Log() == old(log.Log())
      ensures ObtainDone(old(State()), State(), b, i) && ObtainRuns(old(State()), State(), b, i)
    {
      ghost var was := State();
      Reassign(i, b);
      ghost var now := State();
      hide *;
      Given(was, now, b, i);
    }

    /** Null when every buffer is pinned, to other blocks. */
    method TryToPin(b: BlockId, ghost who: nat) returns (buffer: Buffer?)
      requires Valid() && who < |lists|
      modifies this`numAvailable, this`lists, owned, files, log`savedLsn, log.file
      ensures Valid() && log.Log() == old(log.Log())
      ensures PinDone(old(State()), State(), who, b, buffer != null)
      ensures PinRuns(old(State()), State(), b, buffer != null)
      ensures buffer != null ==> buffer in pool && buffer.block == Some(b) && buffer.contents == Seen(b)
    {
      var i := Obtain(b);
      assert i < |pool| ==> pool[i].block == Some(b);
      hide *;
      buffer := null;
      ghost var mid := State();
      if i < |pool| {
        PinBuffer(i, b, who);
        buffer := pool[i];
      }
      PinIsDone(old(State()), mid, State(), who, b, i);
      PinIsRun(old(State()), mid, State(), who, b, i);
    }

    method PinBuffer(i: nat, b: BlockId, ghost who: nat)
      requires Valid() && who < |lists| && i < |pool| && pool[i].block == Some(b)
      modifies this`numAvailable, this`lists, pool[i]
      ensures Valid() && pool[i].block == Some(b) && pool[i].contents == Seen(b)
      ensures i < |old(State()).slots| && State() == Pinned(old(State()), i, who, b)
      ensures SameView(old(Slots()), files.disk, Slots(), files.disk)
    {
      hide Sound, SameView, View;
      ghost var slots := Slots();
      PinSound(slots, files.disk, lists, numAvailable, i, who, b);
      if !pool[i].IsPinned() {
        numAvailable := numAvailable - 1;
      }
      assert numAvailable == if slots[i].pins > 0 then old(numAvailable) else old(numAvailable) - 1;
      PinAt(i);
      assert Slots() == WithPins(slots, i, slots[i].pins + 1);
      lists := lists[who := MorePins(lists[who], b)];
      ShownAt(Slots(), files.disk, lists, numAvailable, i, b);
    }

    /** For a pin that the list has. */
    method Unpin(buffer: Buffer, ghost i: nat, ghost who: nat, ghost b: BlockId)
      requires Valid() && who < |lists| && CountIn(lists[who], b) > 0
      requires i < |pool| && pool[i] == buffer && buffer.block == Some(b)
      modifies this`numAvailable, this`lists, buffer
      ensures Valid()
      ensures SameView(old(Slots()), files.disk, Slots(), files.disk)
      ensures lists == old(lists)[who := FewerPins(old(lists)[who], b)]
      ensures Slots() == WithPins(old(Slots()), i, old(Slots())[i].pins - 1)
      ensures old(Slots())[i].pins > 0 && Runs(old(State()), [CountPins(i, old(Slots())[i].pins - 1)], State())
    {
      hide Sound, SameView, View;
      UnpinSound(Slots(), files.disk, lists, numAvailable, i, who, b);
      UnpinOne(buffer, i);
      if !buffer.IsPinned() {
        numAvailable := numAvailable + 1;
      }
      lists := lists[who := FewerPins(lists[who], b)];
      OneRun(old(State()), CountPins(i, old(Slots())[i].pins - 1), State());
    }

    method Change(buffer: Buffer, ghost i: nat, b: BlockId, f: Field, v: Value, t: int, lsn: int)
      requires Valid() && i < |pool| && pool[i] == buffer && buffer.block == Some(b) && t >= 0
      modifies buffer
      ensures Valid()
      ensures forall c: BlockId :: Seen(c) == if c == b then old(Seen(b))[f := v] else old(Seen(c))
      ensures Slots() == old(Slots())[i := old(Slots())[i].Changed(f, v, t, lsn)]
      ensures KeepsBlocks(old(Slots()), Slots())
    {
      hide Sound, View, PinsOk, PoolOk;
      ghost var slots := Slots();
      ChangeSound(slots, files.disk, lists, numAvailable, i, b, f, v, t, lsn);
      ChangeOne(buffer, i, f, v, t, lsn);
    }
  }

  /** A change shows in the view of its own block and nowhere else. */
  lemma {:induction false} ChangeSound(slots: seq<Slot>, disk: Disk, lists: Lists, available: int, i: nat, b: BlockId,
                                       f: Field, v: Value, t: int, lsn: int)
    requires Sound(slots, disk, lists, available) && i < |slots| && slots[i].Has(b) && t >= 0
    ensures var slots' := slots[i := slots[i].Changed(f, v, t, lsn)];
            Sound(slots', disk, lists, available) &&
            forall c: BlockId ::
              View(slots', disk, c) == if c == b then View(slots, disk, b)[f := v] else View(slots, disk, c)
  {
    var s := slots[i].Changed(f, v, t, lsn);
    assert slots[i].Ok(disk);
    FindAt(slots, i, b);
    forall c: BlockId
      ensures View(slots[i := s], disk, c) == if c == b then View(slots, disk, b)[f := v] else View(slots, disk, c)
    {
      SameBlockView(slots, disk, i, s, disk, c);
    }
    PinsSame(slots, slots[i := s], lists);
    UnpinnedUpdate(slots, i, s);
    assert NoTwice(slots[i := s]);
  }

  /** One pin more for a buffer and for a list. */
  function Pinned(was: PoolState, i: nat, who: nat, b: BlockId): PoolState
    requires i < |was.slots| && who < |was.lists|
  {
    PoolState(WithPins(was.slots, i, was.slots[i].pins + 1), was.disk,
              was.lists[who := MorePins(was.lists[who], b)])
  }

  /** A buffer has the block, unless every one is pinned to another. */
  ghost predicate ObtainDone(was: PoolState, now: PoolState, b: BlockId, i: nat) {
    && SameView(was.slots, was.disk, now.slots, now.disk) && KeepsPinned(was.slots, now.slots)
    && now.lists == was.lists && i == Find(now.slots, b)
    && (i == |now.slots| <==> Find(was.slots, b) == |was.slots| && Unpinned(was.slots) == 0)
    && (i == |now.slots| ==> now == was)
  }

  /** The buffer was there already, or has been given to the block. */
  ghost predicate ObtainRuns(was: PoolState, now: PoolState, b: BlockId, i: nat) {
    i < |now.slots| ==>
      |was.slots| == |now.slots| && now.slots[i].Has(b) && now.slots[i].pins >= 0 &&
      if was.slots[i].Has(b) then now.slots == was.slots && now.disk == was.disk
      else CanDo(was.slots, Give(i, b)) && Do(was.slots, was.disk, Give(i, b)) == (now.slots, now.disk)
  }

  lemma {:induction false} Kept(s: PoolState, b: BlockId, i: nat)
    requires PoolOk(s.slots, s.disk)
    requires if i < |s.slots| then i == Find(s.slots, b) else i == |s.slots| == Find(s.slots, b) && Unpinned(s.slots) == 0
    ensures ObtainDone(s, s, b, i) && ObtainRuns(s, s, b, i)
  {
    if i < |s.slots| {
      assert s.slots[i].Ok(s.disk);
    }
  }

  lemma {:induction false} Given(was: PoolState, now: PoolState, b: BlockId, i: nat)
    requires i < |was.slots| && was.slots[i].pins == 0 && Find(was.slots, b) == |was.slots|
    requires now.disk == was.slots[i].WrittenTo(was.disk) && now.lists == was.lists
    requires now.slots == was.slots[i := was.slots[i].GivenTo(b, now.disk)]
    requires SameView(was.slots, was.disk, now.slots, now.disk) && Find(now.slots, b) == i
    ensures ObtainDone(was, now, b, i) && ObtainRuns(was, now, b, i)
  {
    SomeUnpinned(was.slots, i);
    assert !was.slots[i].Has(b);
  }

  /** Nothing happened, or one buffer was obtained and its pins counted. */
  ghost predicate PinRuns(was: PoolState, now: PoolState, b: BlockId, ok: bool) {
    if ok then exists i :: 0 <= i < |was.slots| && Runs(was, PinOps(was.slots, b, i), now)
    else Runs(was, [], now)
  }

  lemma {:induction false} PinIsRun(was: PoolState, mid: PoolState, now: PoolState, who: nat, b: BlockId, i: nat)
    requires ObtainDone(was, mid, b, i) && ObtainRuns(was, mid, b, i) && who < |mid.lists|
    requires if i < |mid.slots| then now == Pinned(mid, i, who, b) else now == mid
    ensures PinRuns(was, now, b, i < |mid.slots|)
  {
    if i < |mid.slots| {
      var op := CountPins(i, mid.slots[i].pins + 1);
      hide RunPool, CanRun;
      if was.slots[i].Has(b) {
        NoRun(was, mid);
        RunsThen(was, [], mid, op, now);
        assert [] + [op] == PinOps(was.slots, b, i);
      } else {
        NoRun(was, was);
        assert [] + [Give(i, b)] == [Give(i, b)];
        RunsThen(was, [], was, Give(i, b), mid);
        RunsThen(was, [Give(i, b)], mid, op, now);
        assert [Give(i, b)] + [op] == PinOps(was.slots, b, i);
      }
    } else {
      NoRun(was, now);
    }
  }

  lemma NoRun(was: PoolState, now: PoolState)
    requires now.slots == was.slots && now.disk == was.disk
    ensures Runs(was, [], now)
  {
  }

  lemma {:induction false} PinIsDone(was: PoolState, mid: PoolState, now: PoolState, who: nat, b: BlockId, i: nat)
    requires ObtainDone(was, mid, b, i) && who < |was.lists|
    requires if i < |mid.slots| then
               now == Pinned(mid, i, who, b) && SameView(mid.slots, mid.disk, now.slots, now.disk)
             else now == mid
    ensures PinDone(was, now, who, b, i < |mid.slots|)
  {
    if i < |mid.slots| {
      SameViewStep(was.slots, was.disk, mid.slots, mid.disk, now.slots, now.disk);
      PinnedStep(was.slots, mid.slots, i, mid.slots[i].pins + 1);
    }
  }

  function WithPins(slots: seq<Slot>, i: nat, pins: int): seq<Slot>
    requires i < |slots|
  {
    slots[i := slots[i].(pins := pins)]
  }

  function Flushed(slots: seq<Slot>, i: nat): seq<Slot>
    requires i < |slots|
  {
    if slots[i].txn >= 0 then slots[i := slots[i].(txn := -1)] else slots
  }

  /** Pinned buffers keep everything but their pin counts. */
  ghost predicate KeepsPinned(slots: seq<Slot>, slots': seq<Slot>) {
    |slots'| == |slots| &&
    forall i :: 0 <= i < |slots| && slots[i].pins > 0 ==> slots'[i].(pins := slots[i].pins) == slots[i]
  }

  lemma {:induction false} ShownAt(slots: seq<Slot>, disk: Disk, lists: Lists, available: int, i: nat, b: BlockId)
    requires Sound(slots, disk, lists, available) && i < |slots| && slots[i].Has(b)
    ensures View(slots, disk, b) == slots[i].page
  {
    FindAt(slots, i, b);
  }

  lemma {:induction false} PinnedStep(before: seq<Slot>, slots: seq<Slot>, i: nat, pins: int)
    requires KeepsPinned(before, slots) && i < |slots|
    ensures KeepsPinned(before, WithPins(slots, i, pins))
  {
  }

  lemma {:induction false} FlushSound(slots: seq<Slot>, disk: Disk, lists: Lists, available: int, i: nat)
    requires Sound(slots, disk, lists, available) && i < |slots|
    ensures Sound(Flushed(slots, i), slots[i].WrittenTo(disk), lists, available)
    ensures SameView(slots, disk, Flushed(slots, i), slots[i].WrittenTo(disk))
    ensures slots[i].txn >= 0 ==> slots[i].block.Some?
  {
    assert slots[i].Ok(disk);
    if slots[i].txn >= 0 {
      FlushKeepsView(slots, disk, i);
      PinsSame(slots, Flushed(slots, i), lists);
      UnpinnedUpdate(slots, i, slots[i].(txn := -1));
    }
  }

  lemma {:induction false} ReassignSound(slots: seq<Slot>, disk: Disk, lists: Lists, available: int, i: nat, s: Slot,
                                         b: BlockId, disk': Disk)
    requires Sound(slots, disk, lists, available) && i < |slots| && slots[i].pins == 0
    requires Find(slots, b) == |slots| && disk' == slots[i].WrittenTo(disk)
    requires s.Has(b) && s.page == ReadBlock(disk', b) && s.pins == 0 && s.txn < 0
    ensures Sound(slots[i := s], disk', lists, available)
    ensures SameView(slots, disk, slots[i := s], disk') && Find(slots[i := s], b) == i
  {
    ReassignOk(slots, disk, lists, i, s, b, disk');
    UnpinnedUpdate(slots, i, s);
  }

  lemma {:induction false} PinSound(slots: seq<Slot>, disk: Disk, lists: Lists, available: int, i: nat, who: nat,
                                    b: BlockId)
    requires Sound(slots, disk, lists, available) && i < |slots| && slots[i].Has(b) && who < |lists|
    ensures slots[i].pins >= 0
    ensures var slots' := WithPins(slots, i, slots[i].pins + 1);
            Sound(slots', disk, lists[who := MorePins(lists[who], b)],
                  if slots[i].pins > 0 then available else available - 1) &&
            SameView(slots, disk, slots', disk)
  {
    assert slots[i].Ok(disk);
    var s := slots[i].(pins := slots[i].pins + 1);
    PinChangeOk(slots, disk, i, s);
    PinsMove(slots, lists, i, s, who, MorePins(lists[who], b), b);
    UnpinnedUpdate(slots, i, s);
  }

  lemma {:induction false} UnpinSound(slots: seq<Slot>, disk: Disk, lists: Lists, available: int, i: nat, who: nat,
                                      b: BlockId)
    requires Sound(slots, disk, lists, available) && i < |slots| && slots[i].Has(b) && who < |lists|
    requires CountIn(lists[who], b) > 0
    ensures slots[i].pins > 0
    ensures var slots' := WithPins(slots, i, slots[i].pins - 1);
            Sound(slots', disk, lists[who := FewerPins(lists[who], b)],
                  if slots[i].pins - 1 > 0 then available else available + 1) &&
            SameView(slots, disk, slots', disk)
  {
    assert slots[i].Ok(disk) && slots[i].pins == SlotPins(lists, slots[i]);
    TotalUpdate(lists, who, lists[who], b);
    var s := slots[i].(pins := slots[i].pins - 1);
    PinChangeOk(slots, disk, i, s);
    PinsMove(slots, lists, i, s, who, FewerPins(lists[who], b), b);
    UnpinnedUpdate(slots, i, s);
  }

  /** A buffer after FlushAll. */
  function FlushedFor(s: Slot, t: int): Slot {
    if s.txn == t then s.(txn := -1) else s
  }

  /** The first buffers are written out if they are the transaction's; the others are as before. */
  ghost predicate FlushedUpTo(slots: seq<Slot>, slots': seq<Slot>, n: nat, t: int) {
    && |slots'| == |slots|
    && (forall i :: 0 <= i < |slots| ==> slots'[i] == if i < n then FlushedFor(slots[i], t) else slots[i])
  }

  /** One buffer has been written out if it was the transaction's. */
  ghost predicate OneFlushed(was: PoolState, now: PoolState, i: nat, t: int)
    requires i < |was.slots|
  {
    && SameView(was.slots, was.disk, now.slots, now.disk)
    && if was.slots[i].txn == t then
         now.slots == Flushed(was.slots, i) && now.disk == was.slots[i].WrittenTo(was.disk)
       else now.slots == was.slots && now.disk == was.disk
  }

  ghost predicate FlushDone(was: PoolState, now: PoolState, n: nat, t: int) {
    && n <= |was.slots| && FlushedUpTo(was.slots, now.slots, n, t) && Runs(was, FlushOps(was.slots, n, t), now)
    && SameView(was.slots, was.disk, now.slots, now.disk)
  }

  lemma {:induction false} FlushDoneStep(was: PoolState, mid: PoolState, now: PoolState, i: nat, t: int)
    requires FlushDone(was, mid, i, t) && i < |was.slots| && t >= 0 && i < |mid.slots| && OneFlushed(mid, now, i, t)
    ensures FlushDone(was, now, i + 1, t)
  {
    SameViewStep(was.slots, was.disk, mid.slots, mid.disk, now.slots, now.disk);
    hide Runs;
    if mid.slots[i].txn == t {
      RunsThen(was, FlushOps(was.slots, i, t), mid, Write(i), now);
    } else {
      SameRuns(was, FlushOps(was.slots, i, t), mid, now);
      assert FlushOps(was.slots, i + 1, t) == FlushOps(was.slots, i, t);
    }
  }

  lemma SameRuns(was: PoolState, ops: seq<PoolOp>, mid: PoolState, now: PoolState)
    requires Runs(was, ops, mid) && now.slots == mid.slots && now.disk == mid.disk
    ensures Runs(was, ops, now)
  {
  }

  lemma {:induction false} SameViewStep(a: seq<Slot>, da: Disk, b: seq<Slot>, db: Disk, c: seq<Slot>, dc: Disk)
    requires SameView(a, da, b, db) && SameView(b, db, c, dc)
    ensures SameView(a, da, c, dc)
  {
    forall x: BlockId ensures View(c, dc, x) == View(a, da, x) {
      assert View(b, db, x) == View(a, da, x);
    }
  }

  lemma {:induction false} SomeUnpinned(slots: seq<Slot>, i: nat)
    requires i < |slots| && slots[i].pins == 0
    ensures Unpinned(slots) > 0
  {
    if i > 0 {
      SomeUnpinned(slots[1..], i - 1);
    }
  }

  /** The buffer is written out if it was changed, and then shows its new block. */
  lemma {:induction false} ReassignOk(slots: seq<Slot>, disk: Disk, lists: Lists, i: nat, s: Slot, b: BlockId, disk': Disk)
    requires PoolOk(slots, disk) && PinsOk(slots, lists) && i < |slots| && slots[i].pins == 0
    requires Find(slots, b) == |slots|
    requires disk' == slots[i].WrittenTo(disk)
    requires s.Has(b) && s.page == ReadBlock(disk', b) && s.pins == 0 && s.txn < 0
    ensures PoolOk(slots[i := s], disk') && SameView(slots, disk, slots[i := s], disk')
    ensures Find(slots[i := s], b) == i && PinsOk(slots[i := s], lists)
  {
    if slots[i].txn >= 0 {
      var clean := slots[i := slots[i].(txn := -1)];
      FlushKeepsView(slots, disk, i);
      PinsSame(slots, clean, lists);
      FirstFound(clean, |clean|, b);
      AssignKeepsView(clean, disk', i, s, b);
      PinsAssigned(clean, disk', lists, i, s, b);
      assert clean[i := s] == slots[i := s];
      SameViewStep(slots, disk, clean, disk', slots[i := s], disk');
    } else {
      assert slots[i].Ok(disk);
      AssignKeepsView(slots, disk, i, s, b);
      PinsAssigned(slots, disk, lists, i, s, b);
    }
  }

  lemma {:induction false} PinChangeOk(slots: seq<Slot>, disk: Disk, i: nat, s: Slot)
    requires PoolOk(slots, disk) && i < |slots| && s == slots[i].(pins := s.pins) && 0 <= s.pins && s.block.Some?
    ensures PoolOk(slots[i := s], disk) && SameView(slots, disk, slots[i := s], disk)
  {
    assert slots[i].Ok(disk);
    forall b: BlockId ensures View(slots[i := s], disk, b) == View(slots, disk, b) {
      SameBlockView(slots, disk, i, s, disk, b);
      if s.Has(b) {
        FindAt(slots, i, b);
      }
    }
    assert NoTwice(slots[i := s]);
  }


  lemma {:induction false} FirstFound(slots: seq<Slot>, i: nat, b: BlockId)
    requires i <= |slots| && (i < |slots| ==> slots[i].Has(b))
    requires forall j :: 0 <= j < i ==> !slots[j].Has(b)
    ensures i == Find(slots, b)
  {
  }

  /** An empty pool shows the disk. */
  lemma {:induction false} NewPool(slots: seq<Slot>, disk: Disk, lists: Lists)
    requires forall i :: 0 <= i < |slots| ==> slots[i] == Slot(None, map[], 0, -1, -1)
    requires forall i :: 0 <= i < |lists| ==> lists[i] == map[]
    ensures PoolOk(slots, disk) && PinsOk(slots, lists) && Unpinned(slots) == |slots|
    ensures forall b: BlockId :: View(slots, disk, b) == ReadBlock(disk, b)
  {
    forall b: BlockId ensures Total(lists, b) == 0 {
      NoPins(lists, b);
    }
    AllUnpinned(slots);
  }

  lemma {:induction false} NoPins(lists: Lists, b: BlockId)
    requires forall i :: 0 <= i < |lists| ==> lists[i] == map[]
    ensures Total(lists, b) == 0
  {
    if lists != [] {
      NoPins(lists[1..], b);
    }
  }

  lemma {:induction false} AllUnpinned(slots: seq<Slot>)
    requires forall i :: 0 <= i < |slots| ==> slots[i].pins == 0
    ensures Unpinned(slots) == |slots|
  {
    if slots != [] {
      AllUnpinned(slots[1..]);
    }
  }

  /** One transaction's pins: the buffer and the count of each block. */
  class BufferList {
    const manager: BufferManager
    ghost const me: nat
    var buffers: map<BlockId, (Buffer, int)>

    ghost predicate EntryOk(b: BlockId)
      reads this, manager, manager.owned
      requires b in buffers && me < |manager.lists| && manager.Wired()
    {
      && buffers[b].0 in manager.pool && buffers[b].0.block == Some(b)
      && buffers[b].1 == CountIn(manager.lists[me], b) > 0
    }

    ghost predicate Valid()
      reads this, manager, manager.owned, manager.files, manager.log, manager.log.file, manager.log.page
    {
      && manager.Valid() && me < |manager.lists|
      && (forall b :: b in buffers ==> EntryOk(b))
      && (forall b: BlockId :: CountIn(manager.lists[me], b) > 0 ==> b in buffers)
    }

    constructor (manager: BufferManager, ghost me: nat)
      requires manager.Valid() && me < |manager.lists| && manager.lists[me] == map[]
      ensures this.manager == manager && this.me == me && buffers == map[] && Valid()
    {
      this.manager, this.me := manager, me;
      buffers := map[];
    }

    /** What the pool does for the other lists leaves this one as it is. */
    twostate lemma OthersLeaveIt()
      requires old(Valid()) && manager.Valid() && buffers == old(buffers)
      requires |manager.lists| == |old(manager.lists)| && manager.lists[me] == old(manager.lists[me])
      requires KeepsPinned(old(manager.Slots()), manager.Slots())
      ensures Valid()
    {
      forall b | b in buffers ensures EntryOk(b) {
        assert old(EntryOk(b));
        var i :| 0 <= i < |manager.pool| && manager.pool[i] == buffers[b].0;
        assert old(manager.Slots()[i]).pins == old(SlotPins(manager.lists, manager.Slots()[i]));
        TotalUpdate(old(manager.lists), me, map[], b);
        assert manager.Slots()[i].block == Some(b);
      }
    }

    lemma OneBuffer(i: nat, j: nat, b: BlockId)
      requires manager.Valid() && i < |manager.pool| && j < |manager.pool|
      requires manager.pool[i].block == Some(b) && manager.pool[j].block == Some(b)
      ensures i == j
    {
      assert NoTwice(manager.Slots());
      assert manager.Slots()[i].block == manager.Slots()[j].block;
    }

    /** False is the error for a pool without an available buffer. */
    method Pin(b: BlockId) returns (ok: bool)
      requires Valid()
      modifies this, manager`numAvailable, manager`lists, manager.owned, manager.files, manager.log, manager.log.file
      ensures Valid() && manager.log.Log() == old(manager.log.Log())
      ensures PinDone(old(manager.State()), manager.State(), me, b, ok)
      ensures if ok then b in buffers else buffers == old(buffers)
    {
      var buffer := Ask(b);
      ok := buffer != null;
      hide *;
      if ok {
        Enter(buffer, b);
      }
    }

    method Ask(b: BlockId) returns (buffer: Buffer?)
      requires Valid()
      modifies manager`numAvailable, manager`lists, manager.owned, manager.files, manager.log, manager.log.file
      ensures manager.Valid() && manager.log.Log() == old(manager.log.Log()) && me < |old(manager.State()).lists|
      ensures PinDone(old(manager.State()), manager.State(), me, b, buffer != null)
      ensures if buffer == null then Valid() else Asked(buffer, b)
    {
      assert manager.Valid() && me < |manager.lists| && manager.State().lists == manager.lists;
      hide *;
      buffer := manager.TryToPin(b, me);
      if buffer == null {
        OthersLeaveIt();
      } else {
        PinnedAhead(b);
        SameBuffer(buffer, b);
      }
    }

    ghost predicate Asked(buffer: Buffer, b: BlockId)
      reads this, manager, manager.owned, manager.files, manager.log, manager.log.file, manager.log.page
    {
      && Ahead(b, 1) && buffer in manager.pool && buffer.block == Some(b)
      && (b in buffers ==> buffers[b].0 == buffer)
    }

    /** The entries are right but for block `b`, where the pool is `d` pins ahead of the list. */
    ghost predicate Ahead(b: BlockId, d: int)
      reads this, manager, manager.owned, manager.files, manager.log, manager.log.file, manager.log.page
    {
      && manager.Valid() && me < |manager.lists|
      && (forall c :: c in buffers ==> buffers[c].0 in manager.pool && buffers[c].0.block == Some(c) && 0 < buffers[c].1)
      && (forall c :: c in buffers && c != b ==> buffers[c].1 == CountIn(manager.lists[me], c))
      && (forall c: BlockId :: CountIn(manager.lists[me], c) > 0 && c != b ==> c in buffers)
      && CountIn(manager.lists[me], b) == (if b in buffers then buffers[b].1 else 0) + d
    }

    method Enter(buffer: Buffer, b: BlockId)
      requires Asked(buffer, b)
      modifies this
      ensures Valid() && b in buffers && manager.State() == old(manager.State())
    {
      hide Sound;
      buffers := buffers[b := if b in buffers then (buffers[b].0, buffers[b].1 + 1) else (buffer, 1)];
      assert EntryOk(b);
    }

    method Leave(b: BlockId)
      requires Ahead(b, -1) && b in buffers
      modifies this
      ensures Valid() && manager.State() == old(manager.State())
    {
      hide Sound;
      var buffer, n := buffers[b].0, buffers[b].1;
      buffers := if n - 1 == 0 then buffers - {b} else buffers[b := (buffer, n - 1)];
    }

    /** After a pin, the list's own entries still name the right buffers. */
    twostate lemma PinnedAhead(b: BlockId)
      requires old(Valid()) && manager.Valid() && buffers == old(buffers)
      requires PinDone(old(manager.State()), manager.State(), me, b, true)
      ensures Ahead(b, 1)
    {
      hide Sound, SameView, KeepsPinned, Find, Unpinned;
      forall c | c in buffers ensures buffers[c].0 in manager.pool && buffers[c].0.block == Some(c) && 0 < buffers[c].1 {
        StillThere(c);
      }
      assert forall c :: c in buffers ==> old(EntryOk(c));
    }

    lemma SameBuffer(buffer: Buffer, b: BlockId)
      requires Ahead(b, 1) && buffer in manager.pool && buffer.block == Some(b)
      ensures Asked(buffer, b)
    {
      if b in buffers {
        var i :| 0 <= i < |manager.pool| && manager.pool[i] == buffers[b].0;
        var j :| 0 <= j < |manager.pool| && manager.pool[j] == buffer;
        OneBuffer(i, j, b);
      }
    }

    twostate lemma StillThere(c: BlockId)
      requires old(Valid()) && c in old(buffers)
      requires KeepsPinned(old(manager.Slots()), manager.Slots())
      ensures old(buffers)[c].0 in manager.pool && old(buffers)[c].0.block == Some(c) && 0 < old(buffers)[c].1
    {
      assert old(EntryOk(c));
      var i :| 0 <= i < |manager.pool| && manager.pool[i] == old(buffers)[c].0;
      assert old(manager.Slots()[i]).pins == old(SlotPins(manager.lists, manager.Slots()[i]));
      TotalUpdate(old(manager.lists), me, map[], c);
      assert manager.Slots()[i].block == Some(c);
    }

    /** False is the error for a block that the list has not pinned. */
    method Unpin(b: BlockId) returns (ok: bool)
      requires Valid()
      modifies this, manager`numAvailable, manager`lists, manager.owned
      ensures Valid() && ok == (b in old(buffers))
      ensures ok ==> CountIn(old(manager.lists)[me], b) > 0 && UnpinDone(old(manager.State()), manager.State(), me, b)
      ensures !ok ==> manager.State() == old(manager.State()) && buffers == old(buffers)
    {
      assert b in buffers ==> EntryOk(b);
      assert manager.Valid() && me < |manager.lists|;
      hide *;
      ok := b in buffers;
      if ok {
        UnpinBuffer(buffers[b].0, b);
        UnpinnedHere(b);
        Leave(b);
      }
    }

    method UnpinBuffer(buffer: Buffer, b: BlockId)
      requires manager.Valid() && me < |manager.lists| && CountIn(manager.lists[me], b) > 0
      requires buffer in manager.pool && buffer.block == Some(b)
      modifies manager`numAvailable, manager`lists, manager.owned
      ensures manager.Valid() && UnpinDone(old(manager.State()), manager.State(), me, b)
    {
      hide Sound, View, SameView;
      ghost var i :| 0 <= i < |manager.pool| && manager.pool[i] == buffer;
      manager.Unpin(buffer, i, me, b);
    }

    twostate lemma UnpinnedHere(b: BlockId)
      requires old(Valid()) && manager.Valid() && buffers == old(buffers) && b in buffers && me < |manager.lists|
      requires old(CountIn(manager.lists[me], b)) > 0 && UnpinDone(old(manager.State()), manager.State(), me, b)
      ensures Ahead(b, -1)
    {
      hide Sound;
      forall c | c in buffers ensures buffers[c].0 in manager.pool && buffers[c].0.block == Some(c) && 0 < buffers[c].1 {
        assert old(EntryOk(c));
        var i :| 0 <= i < |manager.pool| && manager.pool[i] == buffers[c].0;
        assert manager.Slots()[i].block == old(manager.Slots()[i]).block;
      }
      assert forall c :: c in buffers ==> old(EntryOk(c));
    }

    /** The blocks still to release: their entries are right, and no other pin of the list is left. */
    ghost predicate Left(todo: set<BlockId>)
      reads this, manager, manager.owned, manager.files, manager.log, manager.log.file, manager.log.page
    {
      && manager.Valid() && me < |manager.lists| && todo <= buffers.Keys
      && (forall c :: c in todo ==> EntryOk(c))
      && (forall c: BlockId :: CountIn(manager.lists[me], c) > 0 ==> c in todo)
    }

    /** Unpin every block as often as it was pinned, then empty the list. */
    method UnpinAll()
      requires Valid()
      modifies this, manager`numAvailable, manager`lists, manager.owned
      ensures Valid() && buffers == map[] && Released(old(manager.State()), manager.State(), me)
      ensures forall b: BlockId :: CountIn(manager.lists[me], b) == 0
    {
      UnpinEntries();
      Empty();
    }

    method Empty()
      requires Left({})
      modifies this
      ensures Valid() && buffers == map[] && manager.State() == old(manager.State())
      ensures forall b: BlockId :: CountIn(manager.lists[me], b) == 0
    {
      hide Sound;
      buffers := map[];
    }

    method UnpinEntries()
      requires Left(buffers.Keys)
      modifies manager`numAvailable, manager`lists, manager.owned
      ensures Left({}) && Released(old(manager.State()), manager.State(), me)
    {
      var todo := buffers.Keys;
      while todo != {}
        invariant Left(todo) && Released(old(manager.State()), manager.State(), me)
      {
        assert me < |manager.lists|;
        hide *;
        var b :| b in todo;
        ghost var before := manager.State();
        UnpinEntry(b, todo);
        ReleasedThenReleased(old(manager.State()), before, manager.State(), me);
        todo := todo - {b};
      }
    }

    method UnpinEntry(b: BlockId, ghost todo: set<BlockId>)
      requires Left(todo) && b in todo
      modifies manager`numAvailable, manager`lists, manager.owned
      ensures Left(todo - {b}) && Released(old(manager.State()), manager.State(), me)
    {
      assert EntryOk(b);
      var buffer, n := buffers[b].0, buffers[b].1;
      var i := 0;
      while i < n
        invariant i <= n && manager.Valid() && me < |manager.lists|
        invariant buffer in manager.pool && buffer.block == Some(b) && CountIn(manager.lists[me], b) == n - i
        invariant Released(old(manager.State()), manager.State(), me)
        invariant OthersInList(old(manager.State()), manager.State(), me, b)
      {
        hide Sound, Released, BufferManager.State, BufferManager.Valid;
        ghost var before := manager.State();
        UnpinBuffer(buffer, b);
        ReleasedStep(old(manager.State()), before, manager.State(), me, b);
        i := i + 1;
      }
      EntryGone(todo - {b});
    }

    twostate lemma EntryGone(rest: set<BlockId>)
      requires manager.Valid() && me < |manager.lists| && me < |old(manager.lists)|
      requires buffers == old(buffers) && rest <= buffers.Keys
      requires forall c :: c in rest ==>
                 old(EntryOk(c)) && CountIn(manager.lists[me], c) == old(CountIn(manager.lists[me], c))
      requires forall c: BlockId :: CountIn(manager.lists[me], c) > 0 ==> c in rest
      requires Released(old(manager.State()), manager.State(), me)
      ensures Left(rest)
    {
      hide Sound;
      forall c | c in rest ensures EntryOk(c) {
        assert old(EntryOk(c));
        var i :| 0 <= i < |manager.pool| && manager.pool[i] == buffers[c].0;
        assert manager.Slots()[i].block == old(manager.Slots()[i]).block;
      }
    }

    method GetVal(b: BlockId, f: Field) returns (v: Value)
      requires Valid() && b in buffers
      ensures v == Get(manager.Seen(b), f)
    {
      assert EntryOk(b);
      ghost var i :| 0 <= i < |manager.pool| && manager.pool[i] == buffers[b].0;
      ShownAt(manager.Slots(), manager.files.disk, manager.lists, manager.numAvailable, i, b);
      v := Get(buffers[b].0.contents, f);
    }

    /** A logged change has an LSN; an undo has -1. */
    method SetVal(b: BlockId, f: Field, v: Value, t: int, lsn: int)
      requires Valid() && b in buffers && t >= 0
      modifies manager.owned
      ensures Valid()
      ensures forall c: BlockId :: manager.Seen(c) == if c == b then old(manager.Seen(b))[f := v] else old(manager.Seen(c))
    {
      assert EntryOk(b);
      ghost var i :| 0 <= i < |manager.pool| && manager.pool[i] == buffers[b].0;
      assert manager.Valid();
      hide *;
      manager.Change(buffers[b].0, i, b, f, v, t, lsn);
      StillValid();
    }

    twostate lemma StillValid()
      requires old(Valid()) && manager.Valid() && buffers == old(buffers) && manager.lists == old(manager.lists)
      requires KeepsBlocks(old(manager.Slots()), manager.Slots())
      ensures Valid()
    {
      hide Sound;
      forall c | c in buffers ensures EntryOk(c) {
        assert old(EntryOk(c));
        var i :| 0 <= i < |manager.pool| && manager.pool[i] == buffers[c].0;
        assert manager.Slots()[i].block == old(manager.Slots()[i]).block;
      }
    }
  }

  ghost predicate KeepsBlocks(slots: seq<Slot>, slots': seq<Slot>) {
    |slots'| == |slots| && forall i :: 0 <= i < |slots| ==> slots'[i].block == slots[i].block
  }

  /** Only pins of one list went. */
  ghost predicate Released(was: PoolState, now: PoolState, who: nat) {
    && OnlyPins(was.slots, now.slots) && now.disk == was.disk
    && |now.lists| == |was.lists| && forall j :: 0 <= j < |was.lists| && j != who ==> now.lists[j] == was.lists[j]
  }

  ghost predicate OthersInList(was: PoolState, now: PoolState, who: nat, b: BlockId)
  {
    && who < |was.lists| && who < |now.lists|
    && forall c: BlockId :: c != b ==> CountIn(now.lists[who], c) == CountIn(was.lists[who], c)
  }

  lemma {:induction false} ReleasedThenReleased(a: PoolState, b: PoolState, c: PoolState, who: nat)
    requires Released(a, b, who) && Released(b, c, who)
    ensures Released(a, c, who)
  {
    forall i | 0 <= i < |a.slots| ensures c.slots[i].(pins := a.slots[i].pins) == a.slots[i] {
      assert b.slots[i].(pins := a.slots[i].pins) == a.slots[i];
      assert c.slots[i].(pins := b.slots[i].pins) == b.slots[i];
    }
  }

  lemma {:induction false} ReleasedStep(was: PoolState, before: PoolState, now: PoolState, who: nat, b: BlockId)
    requires Released(was, before, who) && OthersInList(was, before, who, b)
    requires who < |before.lists| && CountIn(before.lists[who], b) > 0 && UnpinDone(before, now, who, b)
    ensures Released(was, now, who) && OthersInList(was, now, who, b)
    ensures CountIn(now.lists[who], b) == CountIn(before.lists[who], b) - 1
  {
    assert Released(before, now, who);
    ReleasedThenReleased(was, before, now, who);
  }

  /** A release changes no view. */
  lemma {:induction false} ReleaseKeepsView(was: PoolState, now: PoolState, who: nat)
    requires Released(was, now, who)
    ensures SameView(was.slots, was.disk, now.slots, now.disk)
  {
    forall b: BlockId ensures View(now.slots, now.disk, b) == View(was.slots, was.disk, b) {
      var i := Find(was.slots, b);
      assert i < |was.slots| ==> now.slots[i].(pins := was.slots[i].pins) == was.slots[i];
      forall j | 0 <= j < i ensures !now.slots[j].Has(b) {
        assert now.slots[j].(pins := was.slots[j].pins) == was.slots[j];
      }
      FirstFound(now.slots, i, b);
    }
  }

  /** Nothing but pin counts differs. */
  ghost predicate OnlyPins(slots: seq<Slot>, slots': seq<Slot>) {
    |slots'| == |slots| && forall i :: 0 <= i < |slots| ==> slots'[i].(pins := slots[i].pins) == slots[i]
  }
}
