/**
 * Transactions and their recovery managers as code over the shared managers of one process. Every
 * method takes steps of the engine only, so all that holds in its reachable states holds here.
 */
module Transactions {
  import opened Storage
  import opened Locks
  import opened History
  import opened Engine
  import opened EngineInvariant
  import opened CrashSafety

  datatype Status = Ok | NotPinned | LockAbort

  lemma {:induction false} ReachPersist(s: State)
    requires Reachable(s) && CanPersist(s)
    ensures Reachable(ApplyPersist(s))
  {
    ReachStep(s, Persist);
  }

  /** Writing the log page out: every record reaches the disk. */
  ghost function PersistAll(s: State): (s': State)
    requires !s.mode.Down? && s.durable <= |s.log|
    ensures s' == s.(durable := |s.log|, done := s'.done, committed := s'.committed, ckpt := s'.ckpt)
    ensures s.done <= s'.done
    decreases |s.log| - s.durable
  {
    if s.durable == |s.log| then s else PersistAll(ApplyPersist(s))
  }

  /** The transactions whose COMMIT records are in the log from `from` on. */
  ghost function Pending(log: seq<Record>, from: nat, txns: map<TxnId, Txn>): seq<seq<Op>>
    requires from <= |log|
    decreases |log|
  {
    if from == |log| then []
    else
      var r := log[|log| - 1];
      Pending(log[..|log| - 1], from, txns) + if r.Commit? && r.t in txns then [txns[r.t].ops] else []
  }

  /** The transactions that will have committed once the log page is written. */
  ghost function Will(s: State): seq<seq<Op>>
    requires s.durable <= |s.log|
  {
    s.done + Pending(s.log, s.durable, s.txns)
  }

  lemma PendingSnoc(log: seq<Record>, r: Record, from: nat, txns: map<TxnId, Txn>)
    requires from <= |log|
    ensures Pending(log + [r], from, txns) ==
            Pending(log, from, txns) + if r.Commit? && r.t in txns then [txns[r.t].ops] else []
  {
    assert (log + [r])[..|log + [r]| - 1] == log;
  }

  lemma {:induction false} PendingFrom(log: seq<Record>, from: nat, txns: map<TxnId, Txn>)
    requires from < |log|
    ensures Pending(log, from, txns) ==
            (if log[from].Commit? && log[from].t in txns then [txns[log[from].t].ops] else []) +
            Pending(log, from + 1, txns)
    decreases |log|
  {
    if from + 1 < |log| {
      PendingFrom(log[..|log| - 1], from, txns);
    }
  }

  lemma {:induction false} PendingFrame(log: seq<Record>, from: nat, txns: map<TxnId, Txn>, txns': map<TxnId, Txn>)
    requires from <= |log|
    requires forall i :: from <= i < |log| && log[i].Commit? ==>
               (log[i].t in txns <==> log[i].t in txns') &&
               (log[i].t in txns ==> txns[log[i].t].ops == txns'[log[i].t].ops)
    ensures Pending(log, from, txns) == Pending(log, from, txns')
    decreases |log|
  {
    if from < |log| {
      PendingFrame(log[..|log| - 1], from, txns, txns');
    }
  }

  lemma {:induction false} PersistWill(s: State, s': State)
    requires Reachable(s) && CanPersist(s) && s' == ApplyPersist(s)
    ensures s'.log == s.log && s'.durable == s.durable + 1 && s'.mode == s.mode
    ensures Reachable(s') && Will(s') == Will(s)
  {
    hide Reachable, ApplyOps, Pending;
    ReachPersist(s);
    assert s'.txns == s.txns;
    PersistCommits(s);
    PendingFrom(s.log, s.durable, s.txns);
    var r := s.log[s.durable];
    var added := if r.Commit? then [s.txns[r.t].ops] else [];
    assert s'.done == s.done + added;
    Regroup(s.done, added, Pending(s.log, s.durable + 1, s.txns));
  }

  lemma Regroup<T>(a: seq<T>, b: seq<T>, c: seq<T>)
    ensures a + (b + c) == (a + b) + c
  {
  }

  lemma {:induction false} PersistAllDone(s: State)
    requires Reachable(s) && !s.mode.Down? && s.durable <= |s.log|
    ensures PersistAll(s).done == Will(s) && Reachable(PersistAll(s))
    decreases |s.log| - s.durable
  {
    if s.durable < |s.log| {
      var s' := ApplyPersist(s);
      PersistWill(s, s');
      PersistAllDone(s');
    }
  }

  /** A pending COMMIT is of a transaction that is ending. */
  lemma {:induction false} PendingEnds(s: State, i: nat)
    requires Reachable(s) && s.mode.Running? && s.durable <= i < |s.log| && s.log[i].Commit?
    ensures s.log[i].t in s.txns && s.txns[s.log[i].t].phase.Ending?
  {
    ReachableOk(s);
    assert TxnOk(s, s.log[i].t);
    assert Ends(s.log[i], s.log[i].t);
  }

  /** Steps that do not touch the transactions that are ending leave what is pending. */
  lemma {:induction false} WillKept(s: State, s': State)
    requires Reachable(s) && s.mode.Running? && s.durable <= |s.log|
    requires s'.log == s.log && s'.durable == s.durable && s'.done == s.done
    requires forall t :: t in s.txns && s.txns[t].phase.Ending? ==> t in s'.txns && s'.txns[t].ops == s.txns[t].ops
    ensures Will(s') == Will(s)
  {
    forall i | s.durable <= i < |s.log| && s.log[i].Commit?
      ensures s.log[i].t in s.txns && s.log[i].t in s'.txns
      ensures s.txns[s.log[i].t].ops == s'.txns[s.log[i].t].ops
    {
      PendingEnds(s, i);
    }
    PendingFrame(s.log, s.durable, s.txns, s'.txns);
  }

  /** Work of the buffer pool and the log page: no value in memory changes, and nothing new will commit. */
  ghost predicate PoolWork(s: State, s': State) {
    && s' == s.(disk := s'.disk, cache := s'.cache, durable := s'.durable, done := s'.done,
                committed := s'.committed, ckpt := s'.ckpt)
    && s.durable <= s'.durable <= |s.log|
    && Will(s') == Will(s)
    && (forall loc :: MemVal(s', loc) == MemVal(s, loc))
  }

  lemma {:induction false} FlushIsWork(s: State)
    requires Reachable(s) && !s.mode.Down? && s.durable <= |s.log|
    ensures PoolWork(s, PersistAll(s))
  {
    PersistAllDone(s);
  }

  lemma {:induction false} PageIsWork(s: State, step: Step)
    requires Reachable(s) && Enabled(s, step) && (step.WritePage? || step.Evict? || step.Fetch?)
    requires s.durable <= |s.log|
    ensures PoolWork(s, Apply(s, step))
  {
    ReachableOk(s);
    if step.Evict? {
      assert FrameOk(s, step.b);
      forall loc ensures MemVal(Apply(s, step), loc) == MemVal(s, loc) {
        if loc.block == step.b {
          assert Get(s.cache[step.b].page, loc.field) == Get(ReadBlock(s.disk, step.b), loc.field);
        }
      }
    }
  }

  lemma WorkThenWork(s: State, s1: State, s2: State)
    requires s.durable <= |s.log| && PoolWork(s, s1) && PoolWork(s1, s2)
    ensures PoolWork(s, s2)
  {
  }

  /** The other transactions' states and locks. */
  ghost predicate OthersKept(s: State, s': State, t: TxnId) {
    && (forall u :: u in s.txns && u != t ==> u in s'.txns && s'.txns[u] == s.txns[u])
    && (forall u :: u != t ==> s'.locks.Held(u) == s.locks.Held(u))
  }

  /** A pinned block is in the pool. */
  ghost predicate PinsOk(pins: map<TxnId, map<BlockId, nat>>, pool: set<BlockId>) {
    forall t :: t in pins ==> ListOk(pins[t], pool)
  }

  ghost predicate ListOk(list: map<BlockId, nat>, pool: set<BlockId>) {
    forall b :: b in list ==> list[b] > 0 && b in pool
  }

  predicate Unpinned(pins: map<TxnId, map<BlockId, nat>>, b: BlockId) {
    forall u | u in pins :: b !in pins[u]
  }

  ghost predicate RoomIn(pool: set<BlockId>, pins: map<TxnId, map<BlockId, nat>>, numBuffers: nat) {
    |pool| < numBuffers || exists v :: v in pool && Unpinned(pins, v)
  }

  /** No block goes while a buffer is free; otherwise one that nobody has pinned. */
  ghost predicate RoomMade(pool: map<BlockId, Frame>, pool': map<BlockId, Frame>, pins: map<TxnId, map<BlockId, nat>>,
                           numBuffers: nat) {
    if |pool| < numBuffers then pool' == pool else exists v :: v in pool && Unpinned(pins, v) && pool' == pool - {v}
  }

  /** The block has come, and the others are as after making room for it. */
  ghost predicate Placed(pool: map<BlockId, Frame>, pool': map<BlockId, Frame>, b: BlockId,
                         pins: map<TxnId, map<BlockId, nat>>, numBuffers: nat) {
    b in pool' && RoomMade(pool, pool' - {b}, pins, numBuffers)
  }

  /** The shared managers: files, log, buffer pool, lock table, and each transaction's lock map and buffer list. */
  class Database {
    const numBuffers: nat
    var disk: Disk
    var log: seq<Record>
    var durable: nat
    var latestLsn: int
    var savedLsn: int
    var cache: map<BlockId, Frame>
    var locks: LockState
    var pins: map<TxnId, map<BlockId, nat>>
    var lastId: nat
    ghost var st: State

    ghost predicate Valid()
      reads this
    {
      && Reachable(st) && !st.mode.Down?
      && st.disk == disk && st.log == log && st.durable == durable && st.cache == cache
      && st.locks == locks && st.lastId == lastId
      && st.base <= durable <= |log|
      && latestLsn == |log| - st.base && savedLsn == durable - st.base
      && PinsOk(pins, cache.Keys) && |cache| <= numBuffers
    }

    predicate Pinned(t: TxnId, b: BlockId)
      reads this
    {
      t in pins && b in pins[t]
    }

    /** A block that is not in the pool can be pinned: a buffer is free, or nobody has its block pinned. */
    ghost predicate Room()
      reads this
    {
      RoomIn(cache.Keys, pins, numBuffers)
    }

    /** A server over a new directory. */
    constructor New(numBuffers: nat)
      ensures Valid() && st == NewDatabase && this.numBuffers == numBuffers
      ensures cache == map[] && pins == map[]
    {
      this.numBuffers := numBuffers;
      disk, log, durable, latestLsn, savedLsn := map[], [], 0, 0, 0;
      cache, locks, pins, lastId := map[], NoLocks, map[], 0;
      st := NewDatabase;
      new;
      assert ValidRun(NewDatabase, []) && RunFrom(NewDatabase, []) == NewDatabase;
    }

    /** A server over what a crash left; its first transaction will recover. */
    constructor Reopen(numBuffers: nat, disk: Disk, log: seq<Record>, ghost crashed: State)
      requires Reachable(crashed) && crashed.mode.Down? && crashed.disk == disk && crashed.log == log
      ensures Valid() && st == Apply(crashed, Restart) && this.numBuffers == numBuffers
      ensures cache == map[] && pins == map[]
    {
      this.numBuffers := numBuffers;
      this.disk, this.durable := disk, |log|;
      this.log, latestLsn, savedLsn := log + [Start(RecoveryTxn)], 1, 0;
      cache, locks, pins, lastId := map[], NoLocks, map[], RecoveryTxn;
      st := Apply(crashed, Restart);
      new;
      ReachableOk(crashed);
      ReachStep(crashed, Restart);
    }

    ghost method Take(step: Step)
      requires Reachable(st) && Enabled(st, step)
      modifies this`st
      ensures st == Apply(old(st), step) && Reachable(st)
    {
      ReachStep(st, step);
      st := Apply(st, step);
    }

    // ---- LogManager ----

    method Append(r: Record, ghost step: Step) returns (lsn: int)
      requires Valid() && Enabled(st, step) && !Apply(st, step).mode.Down?
      requires var s' := Apply(st, step);
               s'.log == log + [r] && s'.disk == disk && s'.durable == durable && s'.cache == cache &&
               s'.locks == locks && s'.base == st.base && s'.lastId == lastId
      modifies this`log, this`latestLsn, this`st
      ensures Valid() && st == Apply(old(st), step) && lsn == latestLsn == old(latestLsn) + 1
    {
      log := log + [r];
      latestLsn := latestLsn + 1;
      Take(step);
      lsn := latestLsn;
    }

    /** The next transaction id, with its START record. */
    method BeginTxn() returns (t: TxnId)
      requires Valid() && st.mode.Running?
      modifies this`log, this`latestLsn, this`lastId, this`st
      ensures Valid() && st == Apply(old(st), Begin) && t == lastId
    {
      lastId := lastId + 1;
      t := lastId;
      log := log + [Start(t)];
      latestLsn := latestLsn + 1;
      Take(Begin);
    }

    method WriteLogPage()
      requires Valid()
      modifies this`durable, this`savedLsn, this`st
      ensures Valid() && st == PersistAll(old(st))
    {
      PersistAllDone(st);
      st := PersistAll(st);
      durable := |log|;
      savedLsn := latestLsn;
    }

    method FlushLog(lsn: int)
      requires Valid()
      modifies this`durable, this`savedLsn, this`st
      ensures Valid() && st == (if lsn > old(savedLsn) then PersistAll(old(st)) else old(st))
    {
      if lsn > savedLsn {
        WriteLogPage();
      }
    }

    // ---- Buffer and BufferManager ----

    /** The log up to the page's LSN. */
    method FlushLogFor(b: BlockId)
      requires Valid() && b in cache
      modifies this`durable, this`savedLsn, this`st
      ensures Valid() && PoolWork(old(st), st) && st.base + cache[b].lsn <= durable
    {
      ReachableOk(st);
      assert FrameOk(st, b);
      FlushIsWork(st);
      FlushLog(cache[b].lsn);
    }

    method WriteOut(b: BlockId)
      requires Valid() && b in cache && st.base + cache[b].lsn <= durable
      modifies this`disk, this`cache, this`st
      ensures Valid() && PoolWork(old(st), st)
      ensures cache == old(cache)[b := old(cache)[b].(owner := -1)]
    {
      PageIsWork(st, WritePage(b));
      disk := disk[b := cache[b].page];
      cache := cache[b := cache[b].(owner := -1)];
      Take(WritePage(b));
    }

    /** Buffer::Flush: the log first, then the page. */
    method WriteFrame(b: BlockId)
      requires Valid() && b in cache
      modifies this`durable, this`savedLsn, this`disk, this`cache, this`st
      ensures Valid() && PoolWork(old(st), st)
      ensures cache == old(cache)[b := old(cache)[b].(owner := -1)]
    {
      if cache[b].owner != -1 {
        FlushLogFor(b);
        ghost var flushed := st;
        WriteOut(b);
        WorkThenWork(old(st), flushed, st);
      }
    }

    /** BufferManager::FlushAll. */
    method FlushAll(t: TxnId)
      requires Valid()
      modifies this`durable, this`savedLsn, this`disk, this`cache, this`st
      ensures Valid() && PoolWork(old(st), st)
      ensures cache.Keys == old(cache).Keys
      ensures t != -1 ==> forall b :: b in cache ==>
                cache[b] == if old(cache)[b].owner == t then old(cache)[b].(owner := -1) else old(cache)[b]
      ensures t != -1 ==> !st.Owns(t)
    {
      var todo := cache.Keys;
      while todo != {}
        invariant Valid() && PoolWork(old(st), st) && cache.Keys == old(cache).Keys
        invariant todo <= cache.Keys
        invariant t != -1 ==> forall b :: b in cache ==>
                    cache[b] == if old(cache)[b].owner == t && b !in todo then old(cache)[b].(owner := -1) else old(cache)[b]
      {
        var b :| b in todo;
        todo := todo - {b};
        if cache[b].owner == t {
          ghost var before := st;
          WriteFrame(b);
          WorkThenWork(old(st), before, st);
        }
      }
    }

    /** BufferManager::TryToPin for the buffer list of `t`: find the block, or a free or unpinned buffer. */
    method Pin(t: TxnId, b: BlockId) returns (ok: bool)
      requires Valid()
      modifies this`durable, this`savedLsn, this`disk, this`cache, this`pins, this`st
      ensures Valid() && PoolWork(old(st), st)
      ensures ok == (b in old(cache) || old(Room())) && (ok ==> b in cache)
      ensures !ok || b in old(cache) ==> cache == old(cache)
      ensures ok && b !in old(cache) ==> Placed(old(cache), cache, b, old(pins), numBuffers)
      ensures pins == if ok then MorePins(old(pins), t, b) else old(pins)
    {
      ok := true;
      if b !in cache {
        ok := MakeRoom();
        if !ok {
          return;
        }
        ghost var before := st;
        Load(b);
        assert cache - {b} == before.cache;
        WorkThenWork(old(st), before, st);
      }
      MorePinsOk(pins, cache.Keys, t, b);
      pins := MorePins(pins, t, b);
    }

    /** The reading half of Buffer::AssignToBlock; the buffer keeps the LSN of its former page. */
    method Load(b: BlockId)
      requires Valid() && b !in cache && |cache| < numBuffers
      modifies this`cache, this`st
      ensures Valid() && PoolWork(old(st), st) && b in cache && cache == old(cache)[b := cache[b]]
    {
      ReachableOk(st);
      var lsn :| -1 <= lsn <= latestLsn;
      PageIsWork(st, Fetch(b, lsn));
      assert forall t :: t in pins ==> ListOk(pins[t], cache.Keys + {b});
      cache := cache[b := Frame(ReadBlock(disk, b), -1, lsn)];
      Take(Fetch(b, lsn));
    }

    /** BufferManager::ChooseUnpinnedBuffer and Buffer::AssignToBlock, up to reading the new block. */
    method MakeRoom() returns (ok: bool)
      requires Valid()
      modifies this`durable, this`savedLsn, this`disk, this`cache, this`st
      ensures Valid() && PoolWork(old(st), st)
      ensures ok ==> RoomMade(old(cache), cache, pins, numBuffers)
      ensures ok == old(Room()) && (if ok then |cache| < numBuffers else cache == old(cache))
    {
      if |cache| < numBuffers {
        return true;
      }
      if v :| v in cache && Unpinned(pins, v) {
        WriteFrame(v);
        ghost var before := st;
        Discard(v);
        WorkThenWork(old(st), before, st);
        assert |cache.Keys| == |old(cache).Keys - {v}|;
        return true;
      }
      return false;
    }

    method Discard(v: BlockId)
      requires Valid() && v in cache && cache[v].owner == -1 && Unpinned(pins, v)
      modifies this`cache, this`st
      ensures Valid() && PoolWork(old(st), st) && cache == old(cache) - {v}
    {
      PageIsWork(st, Evict(v));
      assert forall t :: t in pins ==> ListOk(pins[t], cache.Keys);
      cache := cache - {v};
      assert forall t :: t in pins ==> ListOk(pins[t], cache.Keys);
      Take(Evict(v));
    }

    method Unpin(t: TxnId, b: BlockId)
      requires Valid() && Pinned(t, b)
      modifies this`pins
      ensures Valid() && pins == FewerPins(old(pins), t, b)
    {
      pins := FewerPins(pins, t, b);
    }
  }

  function PinsOf(pins: map<TxnId, map<BlockId, nat>>, t: TxnId): map<BlockId, nat> {
    if t in pins then pins[t] else map[]
  }

  /** Every transaction has the same blocks pinned as often. */
  ghost predicate SamePins(pins: map<TxnId, map<BlockId, nat>>, pins': map<TxnId, map<BlockId, nat>>) {
    forall t :: PinsOf(pins', t) == PinsOf(pins, t)
  }

  /** BufferList::Pin. */
  function MorePins(pins: map<TxnId, map<BlockId, nat>>, t: TxnId, b: BlockId): map<TxnId, map<BlockId, nat>> {
    var mine := PinsOf(pins, t);
    pins[t := mine[b := (if b in mine then mine[b] else 0) + 1]]
  }

  /** BufferList::Unpin: the entry goes when its count reaches 0. */
  function FewerPins(pins: map<TxnId, map<BlockId, nat>>, t: TxnId, b: BlockId): map<TxnId, map<BlockId, nat>>
    requires t in pins && b in pins[t]
  {
    pins[t := if pins[t][b] <= 1 then pins[t] - {b} else pins[t][b := pins[t][b] - 1]]
  }

  lemma MorePinsOk(pins: map<TxnId, map<BlockId, nat>>, pool: set<BlockId>, t: TxnId, b: BlockId)
    requires PinsOk(pins, pool) && b in pool
    ensures PinsOk(MorePins(pins, t, b), pool)
    ensures t in MorePins(pins, t, b) && b in MorePins(pins, t, b)[t]
  {
    assert t in pins ==> ListOk(pins[t], pool);
    forall u | u in MorePins(pins, t, b) ensures ListOk(MorePins(pins, t, b)[u], pool) {
      assert u != t ==> u in pins;
    }
  }

  /** A list without entries may stay behind. */
  lemma {:induction false} UnpinUndoesPin(pins: map<TxnId, map<BlockId, nat>>, pool: set<BlockId>, t: TxnId, b: BlockId)
    requires PinsOk(pins, pool)
    ensures var back := FewerPins(MorePins(pins, t, b), t, b);
            back == (if t in pins then pins else pins[t := map[]]) &&
            forall v :: Unpinned(back, v) == Unpinned(pins, v)
  {
    var more := MorePins(pins, t, b);
    var back := FewerPins(more, t, b);
    if t in pins {
      assert ListOk(pins[t], pool);
      if b !in pins[t] {
        assert more[t] - {b} == pins[t];
      }
      assert back[t] == pins[t];
    } else {
      assert back[t] == map[];
    }
    assert forall u :: u in back <==> u in pins || u == t;
    assert forall u :: u in pins ==> back[u] == pins[u];
  }

  lemma PinsLess(pins: map<TxnId, map<BlockId, nat>>, pool: set<BlockId>, t: TxnId)
    requires PinsOk(pins, pool)
    ensures PinsOk(pins - {t}, pool)
  {
  }

  lemma {:induction false} PinsBack(pins: map<TxnId, map<BlockId, nat>>, pool: set<BlockId>, t: TxnId, b: BlockId)
    requires PinsOk(pins, pool)
    ensures SamePins(pins, pins) && SamePins(pins, FewerPins(MorePins(pins, t, b), t, b))
  {
    UnpinUndoesPin(pins, pool, t, b);
  }

  /** A pin that is taken back leaves the pool with room exactly if it had room; without room it has the same blocks. */
  lemma {:induction false} RoomBack(pins: map<TxnId, map<BlockId, nat>>, pool: set<BlockId>, pool': set<BlockId>, t: TxnId,
                                    b: BlockId, numBuffers: nat)
    requires PinsOk(pins, pool) && b in pool' && (b in pool || RoomIn(pool, pins, numBuffers))
    requires b in pool ==> pool' == pool
    ensures var back := FewerPins(MorePins(pins, t, b), t, b);
            RoomIn(pool', back, numBuffers) == RoomIn(pool, pins, numBuffers) &&
            (!RoomIn(pool, pins, numBuffers) ==> pool' == pool)
  {
    UnpinUndoesPin(pins, pool, t, b);
    var back := FewerPins(MorePins(pins, t, b), t, b);
    hide FewerPins, MorePins;
    if b in pool {
      assert forall v :: v in pool ==> (Unpinned(back, v) <==> Unpinned(pins, v));
    } else {
      assert Unpinned(pins, b) by {
        assert forall u :: u in pins ==> ListOk(pins[u], pool);
      }
      assert Unpinned(back, b);
    }
  }
}
