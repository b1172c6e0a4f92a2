/** The buffers of the pool carry out the pool steps of the engine, and no others. */
module PoolRefinement {
  import opened Storage
  import opened Locks
  import opened Engine
  import opened EngineInvariant
  import opened EngineRecovery
  import opened CrashSafety
  import Pool = BufferPool
  import Transactions

  function FrameOf(x: Pool.Slot): Frame {
    Frame(x.page, if x.txn < 0 then -1 else x.txn, x.lsn)
  }

  /** The engine's cache has exactly the blocks that are in buffers, with what the buffers hold. */
  ghost predicate Shows(slots: seq<Pool.Slot>, cache: map<BlockId, Frame>) {
    && (forall b: BlockId :: b in cache <==> Pool.Find(slots, b) < |slots|)
    && (forall b: BlockId :: b in cache && Pool.Find(slots, b) < |slots| ==> cache[b] == FrameOf(slots[Pool.Find(slots, b)]))
  }

  ghost predicate Coupled(slots: seq<Pool.Slot>, disk: Disk, s: State) {
    && Pool.PoolOk(slots, disk) && s.disk == disk && Shows(slots, s.cache)
    && forall i :: 0 <= i < |slots| ==> slots[i].lsn < s.NextLsn()
  }

  // ---- one buffer ----

  lemma {:induction false} ShowsChanged(slots: seq<Pool.Slot>, cache: map<BlockId, Frame>, i: nat, x: Pool.Slot, b: BlockId)
    requires Pool.NoTwice(slots) && Shows(slots, cache) && i < |slots| && slots[i].Has(b) && x.Has(b)
    ensures b in cache && cache[b] == FrameOf(slots[i])
    ensures Shows(slots[i := x], cache[b := FrameOf(x)])
  {
    Pool.FindAt(slots, i, b);
    var slots', cache' := slots[i := x], cache[b := FrameOf(x)];
    forall c: BlockId
      ensures Pool.Find(slots', c) == Pool.Find(slots, c)
      ensures c in cache' && Pool.Find(slots', c) < |slots'| ==> cache'[c] == FrameOf(slots'[Pool.Find(slots', c)])
    {
      Pool.SameBlockView(slots, map[], i, x, map[], c);
    }
  }

  /** Pin counts are no business of the engine. */
  lemma {:induction false} PinsStutter(slots: seq<Pool.Slot>, disk: Disk, s: State, i: nat, pins: nat)
    requires Coupled(slots, disk, s) && i < |slots| && slots[i].block.Some?
    ensures Coupled(Pool.WithPins(slots, i, pins), disk, s)
  {
    var x, b := slots[i].(pins := pins), slots[i].block.value;
    ShowsChanged(slots, s.cache, i, x, b);
    assert s.cache[b := FrameOf(x)] == s.cache;
    assert slots[i].Ok(disk);
    OkUpdate(slots, disk, i, x, disk);
  }

  lemma {:induction false} OkUpdate(slots: seq<Pool.Slot>, disk: Disk, i: nat, x: Pool.Slot, disk': Disk)
    requires Pool.PoolOk(slots, disk) && i < |slots| && x.block == slots[i].block && x.Ok(disk')
    requires forall c: BlockId :: !x.Has(c) ==> ReadBlock(disk', c) == ReadBlock(disk, c)
    ensures Pool.PoolOk(slots[i := x], disk')
  {
    var slots' := slots[i := x];
    forall j | 0 <= j < |slots| ensures slots'[j].Ok(disk') {
      assert slots[j].Ok(disk);
      assert j != i && slots[j].block.Some? ==> slots[j].block != slots[i].block;
    }
  }

  /** A change of a page and its SetModified are the engine's change. */
  lemma {:induction false} ChangeIsModify(slots: seq<Pool.Slot>, disk: Disk, s: State, i: nat, loc: Loc, v: Value, t: TxnId,
                                          lsn: int)
    requires Coupled(slots, disk, s) && i < |slots| && slots[i].Has(loc.block) && t >= 0 && lsn < s.NextLsn()
    ensures loc.block in s.cache
    ensures Coupled(slots[i := slots[i].Changed(loc.field, v, t, lsn)], disk, s.Modify(t, loc, v, lsn))
  {
    var x := slots[i].Changed(loc.field, v, t, lsn);
    ShowsChanged(slots, s.cache, i, x, loc.block);
    assert slots[i].Ok(disk);
    OkUpdate(slots, disk, i, x, disk);
  }

  ghost function Took(s: State, step: Step): State {
    if Enabled(s, step) then Apply(s, step) else s
  }

  /** LogManager::Flush: the whole log page, unless the LSN is saved already. */
  ghost function Logged(s: State, lsn: int): State {
    if s.base + lsn > s.durable && !s.mode.Down? && s.durable <= |s.log| then Transactions.PersistAll(s) else s
  }

  /** Buffer::Flush, as the engine sees it. */
  ghost function Wrote(s: State, x: Pool.Slot): State {
    if x.txn < 0 || x.block.None? then s else Took(Logged(s, x.lsn), WritePage(x.block.value))
  }

  /** Buffer::AssignToBlock, as the engine sees it. */
  ghost function Gave(s: State, x: Pool.Slot, b: BlockId): State {
    var s1 := Wrote(s, x);
    Took(if x.block.Some? then Took(s1, Evict(x.block.value)) else s1, Fetch(b, x.lsn))
  }

  lemma {:induction false} LogFlushed(s: State, lsn: int) returns (s': State)
    requires Reachable(s) && !s.mode.Down? && s.base <= s.durable <= |s.log| && lsn < s.NextLsn()
    ensures Reachable(s') && Transactions.PoolWork(s, s') && s'.base + lsn <= s'.durable
    ensures s'.disk == s.disk && s'.cache == s.cache && s' == Logged(s, lsn)
  {
    s' := s;
    if s.base + lsn > s.durable {
      Transactions.PersistAllDone(s);
      Transactions.FlushIsWork(s);
      s' := Transactions.PersistAll(s);
    }
  }

  lemma {:induction false} PageStep(s: State, step: Step) returns (s': State)
    requires Reachable(s) && Enabled(s, step) && (step.WritePage? || step.Evict? || step.Fetch?)
    requires s.durable <= |s.log|
    ensures s' == Apply(s, step) == Took(s, step) && Reachable(s') && Transactions.PoolWork(s, s')
  {
    s' := Apply(s, step);
    Transactions.PageIsWork(s, step);
    ReachStep(s, step);
  }

  lemma {:induction false} WriteStep(s: State, b: BlockId) returns (s': State)
    requires Reachable(s) && s.durable <= |s.log| && b in s.cache && s.base + s.cache[b].lsn <= s.durable
    ensures s' == Took(s, WritePage(b)) && Reachable(s') && Transactions.PoolWork(s, s')
    ensures s' == s.(disk := s.disk[b := s.cache[b].page], cache := s.cache[b := s.cache[b].(owner := -1)])
  {
    s' := PageStep(s, WritePage(b));
  }

  lemma {:induction false} EvictStep(s: State, b: BlockId) returns (s': State)
    requires Reachable(s) && s.durable <= |s.log| && b in s.cache && s.cache[b].owner == -1
    ensures s' == Took(s, Evict(b)) && Reachable(s') && Transactions.PoolWork(s, s')
    ensures s' == s.(cache := s.cache - {b})
  {
    s' := PageStep(s, Evict(b));
  }

  lemma {:induction false} FetchStep(s: State, b: BlockId, lsn: int) returns (s': State)
    requires Reachable(s) && s.durable <= |s.log| && !s.mode.Down? && b !in s.cache && lsn < s.NextLsn()
    ensures s' == Took(s, Fetch(b, lsn)) && Reachable(s') && Transactions.PoolWork(s, s')
    ensures s' == s.(cache := s.cache[b := Frame(ReadBlock(s.disk, b), -1, lsn)])
  {
    s' := PageStep(s, Fetch(b, lsn));
  }

  /** Buffer::Flush is work of the engine: the log up to the page's LSN, then the page. */
  lemma {:induction false} FlushIsWork(slots: seq<Pool.Slot>, disk: Disk, s: State, i: nat) returns (s': State)
    requires Coupled(slots, disk, s) && Reachable(s) && !s.mode.Down? && s.base <= s.durable <= |s.log| && i < |slots|
    ensures Reachable(s') && Transactions.PoolWork(s, s') && s' == Wrote(s, slots[i])
    ensures Coupled(Pool.Flushed(slots, i), slots[i].WrittenTo(disk), s')
  {
    var x := slots[i];
    if x.txn < 0 {
      s' := s;
    } else {
      FlushReady(slots, disk, s, i);
      var b := x.block.value;
      hide Coupled, Reachable, Transactions.PoolWork, Took, Logged;
      var s1 := LogFlushed(s, x.lsn);
      Work(s, s, s1);
      s' := WriteStep(s1, b);
      Work(s, s1, s');
      FlushedCoupled(slots, disk, s, i, s');
    }
  }

  lemma {:induction false} FlushReady(slots: seq<Pool.Slot>, disk: Disk, s: State, i: nat)
    requires Coupled(slots, disk, s) && i < |slots| && slots[i].txn >= 0
    ensures slots[i].block.Some? && slots[i].lsn < s.NextLsn()
    ensures var b := slots[i].block.value;
            b in s.cache && s.cache[b] == FrameOf(slots[i])
  {
    assert slots[i].Ok(disk);
    ShowsChanged(slots, s.cache, i, slots[i], slots[i].block.value);
  }

  lemma {:induction false} FlushedCoupled(slots: seq<Pool.Slot>, disk: Disk, s: State, i: nat, s': State)
    requires Coupled(slots, disk, s) && i < |slots| && slots[i].txn >= 0 && slots[i].block.Some?
    requires var b := slots[i].block.value;
             b in s.cache && s.cache[b] == FrameOf(slots[i]) && s'.NextLsn() == s.NextLsn() &&
             s'.cache == s.cache[b := s.cache[b].(owner := -1)] && s'.disk == s.disk[b := s.cache[b].page]
    ensures Coupled(Pool.Flushed(slots, i), slots[i].WrittenTo(disk), s')
  {
    var x, y := slots[i], slots[i].(txn := -1);
    assert x.Ok(disk);
    ShowsChanged(slots, s.cache, i, y, x.block.value);
    OkUpdate(slots, disk, i, y, x.WrittenTo(disk));
  }

  lemma Work(s: State, s1: State, s2: State)
    requires s.durable <= |s.log| && Transactions.PoolWork(s, s1) && Transactions.PoolWork(s1, s2)
    ensures Transactions.PoolWork(s, s2) && s2.log == s.log && s2.base == s.base && s2.mode == s.mode
    ensures s1.durable <= |s1.log| && s.durable <= s2.durable <= |s2.log|
  {
    Transactions.WorkThenWork(s, s1, s2);
  }

  lemma {:induction false} ShowsAssigned(slots: seq<Pool.Slot>, cache: map<BlockId, Frame>, i: nat, y: Pool.Slot, b: BlockId)
    requires Pool.NoTwice(slots) && Shows(slots, cache) && i < |slots| && Pool.Find(slots, b) == |slots| && y.Has(b)
    ensures var rest := if slots[i].block.Some? then cache - {slots[i].block.value} else cache;
            Shows(slots[i := y], rest[b := FrameOf(y)])
  {
    var slots' := slots[i := y];
    var rest := if slots[i].block.Some? then cache - {slots[i].block.value} else cache;
    var cache' := rest[b := FrameOf(y)];
    assert Pool.NoTwice(slots');
    forall c: BlockId
      ensures c in cache' <==> Pool.Find(slots', c) < |slots'|
      ensures c in cache' && Pool.Find(slots', c) < |slots'| ==> cache'[c] == FrameOf(slots'[Pool.Find(slots', c)])
    {
      OtherShown(slots, cache, i, y, b, c);
    }
  }

  lemma {:induction false} OtherShown(slots: seq<Pool.Slot>, cache: map<BlockId, Frame>, i: nat, y: Pool.Slot, b: BlockId,
                                      c: BlockId)
    requires Pool.NoTwice(slots) && Shows(slots, cache) && i < |slots| && Pool.Find(slots, b) == |slots| && y.Has(b)
    requires Pool.NoTwice(slots[i := y])
    ensures var k := Pool.Find(slots[i := y], c);
            if c == b then k == i
            else if slots[i].Has(c) then k == |slots|
            else k == Pool.Find(slots, c) && k != i
  {
    var slots', k := slots[i := y], Pool.Find(slots, c);
    if c == b {
      Pool.FindAt(slots', i, b);
    } else if slots[i].Has(c) {
      assert forall j :: 0 <= j < |slots| ==> !slots'[j].Has(c);
    } else if k < |slots| {
      Pool.FindAt(slots', k, c);
    } else {
      assert forall j :: 0 <= j < |slots| ==> !slots'[j].Has(c);
    }
  }

  /** Buffer::AssignToBlock for a block that no buffer has is work of the engine: the old page goes out and is given up,
      and the block is fetched. */
  lemma {:induction false} AssignIsWork(slots: seq<Pool.Slot>, disk: Disk, s: State, i: nat, b: BlockId) returns (s': State)
    requires Coupled(slots, disk, s) && Reachable(s) && !s.mode.Down? && s.base <= s.durable <= |s.log| && i < |slots|
    requires Pool.Find(slots, b) == |slots|
    ensures Reachable(s') && Transactions.PoolWork(s, s') && s' == Gave(s, slots[i], b)
    ensures var disk' := slots[i].WrittenTo(disk);
            Coupled(slots[i := slots[i].GivenTo(b, disk')], disk', s')
  {
    var clean, disk' := Pool.Flushed(slots, i), slots[i].WrittenTo(disk);
    var y := slots[i].GivenTo(b, disk');
    assert clean[i := y] == slots[i := y];
    var s1 := FlushIsWork(slots, disk, s, i);
    StillFree(slots, i, b);
    hide Reachable, Transactions.PoolWork, Took, Logged;
    Work(s, s, s1);
    s' := GiveClean(clean, disk', s1, i, b, y);
    Work(s, s1, s');
  }

  lemma {:induction false} StillFree(slots: seq<Pool.Slot>, i: nat, b: BlockId)
    requires i < |slots| && Pool.Find(slots, b) == |slots|
    ensures Pool.Find(Pool.Flushed(slots, i), b) == |slots|
  {
    var clean := Pool.Flushed(slots, i);
    assert forall j :: 0 <= j < |slots| ==> clean[j].block == slots[j].block;
  }

  lemma {:induction false} GiveClean(slots: seq<Pool.Slot>, disk: Disk, s: State, i: nat, b: BlockId, y: Pool.Slot)
    returns (s': State)
    requires Coupled(slots, disk, s) && Reachable(s) && !s.mode.Down? && s.durable <= |s.log| && i < |slots|
    requires Pool.Find(slots, b) == |slots| && slots[i].txn < 0
    requires y == Pool.Slot(Some(b), ReadBlock(disk, b), 0, y.txn, slots[i].lsn) && y.txn < 0
    ensures Reachable(s') && Transactions.PoolWork(s, s') && Coupled(slots[i := y], disk, s')
    ensures var x := slots[i];
            s' == Took(if x.block.Some? then Took(s, Evict(x.block.value)) else s, Fetch(b, x.lsn))
  {
    var x := slots[i];
    assert x.Ok(disk);
    Pool.AssignKeepsView(slots, disk, i, y, b);
    ShowsAssigned(slots, s.cache, i, y, b);
    if x.block.Some? {
      Pool.FindAt(slots, i, x.block.value);
    }
    assert b !in s.cache;
    hide Shows, Pool.PoolOk, Pool.Find, Reachable, Transactions.PoolWork, Took, Apply, Enabled;
    var s1 := s;
    if x.block.Some? {
      s1 := EvictStep(s, x.block.value);
    }
    Work(s, s, s1);
    s' := FetchStep(s1, b, x.lsn);
    Work(s, s1, s');
  }

  // ---- runs of the pool ----

  /** The pool's operation, as the engine sees it. */
  ghost function EngineDo(s: State, slots: seq<Pool.Slot>, op: Pool.PoolOp): State
    requires op.i < |slots|
  {
    match op
    case Write(i) => Wrote(s, slots[i])
    case Give(i, b) => Gave(s, slots[i], b)
    case CountPins(_, _) => s
  }

  lemma {:induction false} StepIsWork(slots: seq<Pool.Slot>, disk: Disk, s: State, op: Pool.PoolOp) returns (s': State)
    requires Coupled(slots, disk, s) && Reachable(s) && !s.mode.Down? && s.base <= s.durable <= |s.log|
    requires Pool.CanDo(slots, op)
    ensures Reachable(s') && Transactions.PoolWork(s, s') && s' == EngineDo(s, slots, op)
    ensures Coupled(Pool.Do(slots, disk, op).0, Pool.Do(slots, disk, op).1, s')
  {
    match op
    case Write(i) => s' := FlushIsWork(slots, disk, s, i);
    case Give(i, b) => s' := AssignIsWork(slots, disk, s, i, b);
    case CountPins(i, pins) =>
      PinsStutter(slots, disk, s, i, pins);
      s' := s;
  }

  /** Every run of the pool is a run of the engine's pool steps: the engine reaches a state whose cache and disk are
      those of the buffers, and in which no value in memory has changed and nothing new will commit. */
  lemma {:induction false} RunIsWork(slots: seq<Pool.Slot>, disk: Disk, s: State, ops: seq<Pool.PoolOp>) returns (s': State)
    requires Coupled(slots, disk, s) && Reachable(s) && !s.mode.Down? && s.base <= s.durable <= |s.log|
    requires Pool.CanRun(slots, disk, ops)
    ensures Reachable(s') && Transactions.PoolWork(s, s')
    ensures Coupled(Pool.RunPool(slots, disk, ops).0, Pool.RunPool(slots, disk, ops).1, s')
    decreases |ops|
  {
    if ops == [] {
      s' := s;
    } else {
      var s1 := StepIsWork(slots, disk, s, ops[0]);
      var (slots', disk') := Pool.Do(slots, disk, ops[0]);
      s' := RunIsWork(slots', disk', s1, ops[1..]);
      Work(s, s1, s');
    }
  }

  // ---- the engine over the buffers ----

  /** The change of a page that a step of the engine makes. */
  datatype PageChange = NoChange | PageChange(t: TxnId, loc: Loc, v: Value, lsn: int)

  function ChangeOf(s: State, step: Step): PageChange
    requires Enabled(s, step)
  {
    match step
    case ChangePage(t) => var p := s.txns[t].phase; PageChange(t, p.loc, p.value, p.lsn)
    case UndoOne(t) =>
      var pos := s.txns[t].phase.pos;
      if pos > 0 && Sets(s.log[pos - 1], t) then PageChange(t, s.log[pos - 1].loc, s.log[pos - 1].was, -1) else NoChange
    case ScanOne =>
      var pos := s.mode.pos;
      if pos > 0 && s.log[pos - 1].SetVal? && s.log[pos - 1].t !in s.mode.finished then
        PageChange(RecoveryTxn, s.log[pos - 1].loc, s.log[pos - 1].was, -1)
      else NoChange
    case _ => NoChange
  }

  predicate OfPool(step: Step) {
    step.Fetch? || step.WritePage? || step.Evict?
  }

  /** What a step leaves of the disk and of the pages: all but the one that it changes. */
  ghost predicate Changes(s: State, s': State, c: PageChange) {
    && s'.disk == s.disk && s'.NextLsn() >= s.NextLsn()
    && match c
       case NoChange => s'.cache == s.cache
       case PageChange(t, loc, v, lsn) => loc.block in s.cache && s'.cache == s.Modify(t, loc, v, lsn).cache
  }

  lemma {:induction false} UndoChanges(s: State, t: TxnId)
    requires CanUndo(s, t)
    ensures Changes(s, ApplyUndo(s, t), ChangeOf(s, UndoOne(t)))
  {
  }

  lemma {:induction false} ScanChanges(s: State)
    requires CanScan(s)
    ensures Changes(s, ApplyScan(s), ChangeOf(s, ScanOne))
  {
    hide LockState.Share, LockState.Upgrade;
  }

  lemma {:induction false} WriteChanges(s: State, t: TxnId)
    requires Enabled(s, ChangePage(t))
    ensures Changes(s, Apply(s, ChangePage(t)), ChangeOf(s, ChangePage(t)))
  {
  }

  lemma {:induction false} StepChanges(s: State, step: Step)
    requires Enabled(s, step) && !OfPool(step) && !step.Crash? && !step.Restart?
    ensures Changes(s, Apply(s, step), ChangeOf(s, step))
  {
    if step.UndoOne? {
      UndoChanges(s, step.t);
    } else if step.ScanOne? {
      ScanChanges(s);
    } else if step.ChangePage? {
      WriteChanges(s, step.t);
    } else {
      hide LockState.Share, LockState.Upgrade, LockState.Unlock, ApplyUndo, ApplyScan, CanUndo, CanScan;
      assert ChangeOf(s, step) == NoChange;
      assert step.Persist? ==> ApplyPersist(s).cache == s.cache && ApplyPersist(s).disk == s.disk;
    }
  }

  /** The engine's state, and the buffers. */
  datatype Joint = Joint(slots: seq<Pool.Slot>, s: State)

  /** Work of the pool, or a step of a transaction, of recovery or of the whole server. */
  datatype JointOp = OnPool(op: Pool.PoolOp) | OnEngine(step: Step)

  ghost predicate CanJoin(j: Joint, op: JointOp) {
    match op
    case OnPool(o) => !j.s.mode.Down? && Pool.CanDo(j.slots, o)
    case OnEngine(step) => Enabled(j.s, step) && !OfPool(step)
  }

  function NewSlots(n: nat): seq<Pool.Slot> {
    seq(n, _ => Pool.Slot(None, map[], 0, -1, -1))
  }

  /** A change is made in the buffer of its block, with SetModified; a crash loses the buffers, and a
      restarted server makes new ones. */
  function SlotsAfter(slots: seq<Pool.Slot>, s: State, step: Step): seq<Pool.Slot>
    requires Enabled(s, step)
  {
    if step.Crash? || step.Restart? then NewSlots(|slots|)
    else
      match ChangeOf(s, step)
      case NoChange => slots
      case PageChange(t, loc, v, lsn) =>
        var i := Pool.Find(slots, loc.block);
        if i < |slots| then slots[i := slots[i].Changed(loc.field, v, t, lsn)] else slots
  }

  ghost function Join(j: Joint, op: JointOp): Joint
    requires CanJoin(j, op)
  {
    match op
    case OnPool(o) => Joint(Pool.Do(j.slots, j.s.disk, o).0, EngineDo(j.s, j.slots, o))
    case OnEngine(step) => Joint(SlotsAfter(j.slots, j.s, step), Apply(j.s, step))
  }

  /** The engine's state is one of its own, and its cache is what the buffers hold. */
  ghost predicate Sound(j: Joint) {
    Reachable(j.s) && Coupled(j.slots, j.s.disk, j.s)
  }

  lemma {:induction false} StepSound(j: Joint, step: Step)
    requires Sound(j) && CanJoin(j, OnEngine(step))
    ensures Sound(Join(j, OnEngine(step)))
  {
    ReachStep(j.s, step);
    ReachableOk(j.s);
    if step.Crash? || step.Restart? {
      assert Apply(j.s, step).cache == map[];
      NewCoupled(|j.slots|, Apply(j.s, step));
    } else {
      StepChanges(j.s, step);
      ChangeInRange(j.s, step);
      hide Apply, Enabled, Reachable;
      ChangeCoupled(j, step);
    }
  }

  lemma {:induction false} ChangeCoupled(j: Joint, step: Step)
    requires Coupled(j.slots, j.s.disk, j.s) && Enabled(j.s, step) && !step.Crash? && !step.Restart?
    requires Changes(j.s, Apply(j.s, step), ChangeOf(j.s, step))
    requires match ChangeOf(j.s, step)
             case NoChange => true
             case PageChange(t, _, _, lsn) => t >= 0 && lsn < j.s.NextLsn()
    ensures Coupled(SlotsAfter(j.slots, j.s, step), Apply(j.s, step).disk, Apply(j.s, step))
  {
    hide Apply, Enabled;
    match ChangeOf(j.s, step)
    case NoChange =>
    case PageChange(t, loc, v, lsn) =>
      var i := Pool.Find(j.slots, loc.block);
      ChangeIsModify(j.slots, j.s.disk, j.s, i, loc, v, t, lsn);
  }

  lemma {:induction false} ChangeInRange(s: State, step: Step)
    requires Reachable(s) && Enabled(s, step)
    ensures match ChangeOf(s, step)
            case NoChange => true
            case PageChange(t, _, _, lsn) => t >= 0 && lsn < s.NextLsn()
  {
    ReachableOk(s);
    hide LocsOk, LogOk, OwnersGuard;
    match step {
      case ChangePage(t) => assert TxnOk(s, t) && PhaseOk(s, t);
      case UndoOne(t) => assert TxnOk(s, t);
      case _ =>
    }
  }

  lemma {:induction false} NewCoupled(n: nat, s: State)
    requires s.cache == map[] && s.base <= |s.log|
    ensures Coupled(NewSlots(n), s.disk, s)
  {
    forall b: BlockId ensures Pool.Find(NewSlots(n), b) == n {
      var i := Pool.Find(NewSlots(n), b);
      assert i < n ==> NewSlots(n)[i].Has(b);
    }
  }

  lemma {:induction false} OpSound(j: Joint, op: JointOp)
    requires Sound(j) && CanJoin(j, op)
    ensures Sound(Join(j, op))
  {
    match op
    case OnPool(o) =>
      ReachableOk(j.s);
      var s' := StepIsWork(j.slots, j.s.disk, j.s, o);
    case OnEngine(step) =>
      StepSound(j, step);
  }

  ghost predicate CanJoinAll(j: Joint, ops: seq<JointOp>)
    decreases |ops|
  {
    ops == [] || (CanJoin(j, ops[0]) && CanJoinAll(Join(j, ops[0]), ops[1..]))
  }

  ghost function JoinAll(j: Joint, ops: seq<JointOp>): Joint
    requires CanJoinAll(j, ops)
    decreases |ops|
  {
    if ops == [] then j else JoinAll(Join(j, ops[0]), ops[1..])
  }

  lemma {:induction false} JoinedRun(j: Joint, ops: seq<JointOp>)
    requires Sound(j) && CanJoinAll(j, ops)
    ensures Sound(JoinAll(j, ops))
    decreases |ops|
  {
    hide Sound, CanJoin, Join;
    if ops != [] {
      OpSound(j, ops[0]);
      JoinedRun(Join(j, ops[0]), ops[1..]);
    }
  }

  /** Every run of transactions, recoveries and crashes over the buffers, from a new database and a new pool, with any
      work of the pool in between, is a run of the engine: what holds in its reachable states holds here, and what a
      reader finds through the buffers is its memory. */
  lemma {:induction false} EngineOverBuffers(numBuffs: nat, ops: seq<JointOp>, loc: Loc)
    requires CanJoinAll(Joint(NewSlots(numBuffs), NewDatabase), ops)
    ensures var j := JoinAll(Joint(NewSlots(numBuffs), NewDatabase), ops);
            Sound(j) && Get(Pool.View(j.slots, j.s.disk, loc.block), loc.field) == MemVal(j.s, loc)
  {
    var start := Joint(NewSlots(numBuffs), NewDatabase);
    assert ValidRun(NewDatabase, []) && RunFrom(NewDatabase, []) == NewDatabase;
    NewCoupled(numBuffs, NewDatabase);
    JoinedRun(start, ops);
  }
}
