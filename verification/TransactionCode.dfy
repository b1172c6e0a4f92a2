/** Transaction and RecoveryManager. */
module TransactionCode {
  import opened Storage
  import opened Locks
  import opened History
  import opened Engine
  import opened EngineInvariant
  import opened EngineSteps
  import opened EngineRecovery
  import opened CrashSafety
  import opened Transactions
  import opened LockManager

  /** The other transactions' locks. */
  ghost predicate SameLocks(ls: LockState, ls': LockState, t: TxnId) {
    forall u :: u != t ==> ls'.Held(u) == ls.Held(u)
  }

  /** Only the locks of `t` differ. */
  ghost predicate LockWork(s: State, s': State, t: TxnId) {
    s' == s.(locks := s'.locks) && SameLocks(s.locks, s'.locks, t)
  }

  /** A lock map with at least a shared lock on the block. */
  function WithShared(mine: map<BlockId, Kind>, b: BlockId): map<BlockId, Kind> {
    if b in mine then mine else mine[b := S]
  }

  lemma {:induction false} LocksMean(s: State)
    requires Reachable(s) && s.mode.Running?
    ensures s.locks.Meaning()
  {
    ReachableOk(s);
  }

  /** A transaction gets a shared lock exactly if no other one has the block exclusively. */
  lemma {:induction false} NoneExclusive(ls: LockState, t: TxnId, b: BlockId)
    requires ls.Meaning()
    ensures ls.Holds(t, b) || ls.Count(b) >= 0 <==> forall u :: u != t ==> !ls.HoldsX(u, b)
  {
    FreeIffCount(ls, b);
    forall u | ls.Holds(t, b) && ls.HoldsX(u, b) ensures u == t {
      ExclusiveAlone(ls, u, t, b);
    }
  }

  lemma {:induction false} OnlyOne(ls: LockState, t: TxnId, b: BlockId)
    requires ls.Meaning() && ls.HoldsX(t, b)
    ensures forall u :: u != t ==> !ls.Holds(u, b)
  {
    forall u | ls.Holds(u, b) ensures u == t {
      ExclusiveAlone(ls, t, u, b);
    }
  }

  /** With a shared lock the count tells whether another transaction has a lock too. */
  lemma {:induction false} AloneIfUpgradable(before: LockState, ls: LockState, t: TxnId, b: BlockId)
    requires ls.Meaning() && ls.Holds(t, b) && forall u :: u != t ==> ls.Held(u) == before.Held(u)
    ensures ls.Count(b) <= 1 <==> forall u :: u != t ==> !before.Holds(u, b)
  {
    AloneIffCount(ls, t, b);
    OnlyHolder(ls, before, t, b);
  }

  /** What one client operation of `t` leaves alone: other transactions, what will commit, other locations. */
  ghost predicate ClientWork(s: State, s': State, t: TxnId) {
    && OthersKept(s, s', t)
    && s'.mode == s.mode && s'.disk == s.disk && s'.durable == s.durable && s'.done == s.done
    && s.durable <= |s.log| && s'.durable <= |s'.log| && Will(s') == Will(s)
  }

  // ---- The engine's steps behind one client operation ----

  lemma {:induction false} LocksAreWork(s: State, s': State, t: TxnId)
    requires Reachable(s) && s.mode.Running? && s.durable <= |s.log| && LockWork(s, s', t)
    ensures ClientWork(s, s', t) && forall l :: MemVal(s', l) == MemVal(s, l)
  {
    WillKept(s, s');
  }

  lemma {:induction false} LoggedIsWork(s: State, t: TxnId, loc: Loc, v: Value)
    requires Reachable(s) && CanLog(s, t, loc) && s.durable <= |s.log|
    ensures Will(ApplyLogOld(s, t, loc, v)) == Will(s)
  {
    var s1 := ApplyLogOld(s, t, loc, v);
    PendingSnoc(s.log, SetVal(t, loc, s.Buffered(loc)), s.durable, s.txns);
    forall i | s.durable <= i < |s.log| && s.log[i].Commit? ensures s.log[i].t in s.txns && s.log[i].t != t {
      PendingEnds(s, i);
    }
    PendingFrame(s1.log, s.durable, s.txns, s1.txns);
  }

  lemma {:induction false} WriteIsWork(s: State, t: TxnId, loc: Loc, v: Value)
    requires Reachable(s) && CanLog(s, t, loc) && s.base <= s.durable <= |s.log|
    ensures var s1 := ApplyLogOld(s, t, loc, v);
            && Enabled(s1, ChangePage(t))
            && s1.log == s.log + [SetVal(t, loc, MemVal(s, loc))]
            && (var s2 := Apply(s1, ChangePage(t));
                && ClientWork(s, s2, t) && s2.log == s1.log && s2.IsIn(t, Active)
                && s2.txns[t].ops == s.txns[t].ops + [Write(loc, v)]
                && MemVal(s2, loc) == v && forall l :: l != loc ==> MemVal(s2, l) == MemVal(s, l))
  {
    LoggedIsWork(s, t, loc, v);
    ReachStep(s, LogOld(t, loc, v));
    var s1 := ApplyLogOld(s, t, loc, v);
    WillKept(s1, Apply(s1, ChangePage(t)));
  }

  lemma {:induction false} EndIsLogged(s: State, t: TxnId, commit: bool)
    requires Reachable(s) && Enabled(s, if commit then LogCommit(t) else LogRollback(t)) && s.durable <= |s.log|
    ensures var s1 := s.Append(if commit then Commit(t) else Rollback(t)).SetPhase(t, Ending(|s.log|, commit));
            Will(s1) == (if commit then Will(s) + [s.txns[t].ops] else Will(s)) && OthersKept(s, s1, t)
  {
    var r := if commit then Commit(t) else Rollback(t);
    var s1 := s.Append(r).SetPhase(t, Ending(|s.log|, commit));
    PendingSnoc(s.log, r, s.durable, s.txns);
    forall i | s.durable <= i < |s.log| && s.log[i].Commit? ensures s.log[i].t in s.txns {
      PendingEnds(s, i);
    }
    PendingFrame(s1.log, s.durable, s.txns, s1.txns);
  }

  ghost function EndStep(t: TxnId, commit: bool): Step {
    if commit then LogCommit(t) else LogRollback(t)
  }

  /** The last record and the log page written with it. */
  ghost function Ended(s: State, t: TxnId, commit: bool): State
    requires Enabled(s, EndStep(t, commit)) && s.durable <= |s.log|
  {
    PersistAll(s.Append(if commit then Commit(t) else Rollback(t)).SetPhase(t, Ending(|s.log|, commit)))
  }

  lemma {:induction false} EndedFacts(s: State, t: TxnId, commit: bool)
    requires Reachable(s) && Enabled(s, EndStep(t, commit)) && s.durable <= |s.log|
    ensures var s' := Ended(s, t, commit);
            && s'.Released(t) && OthersKept(s, s', t) && s'.txns.Keys == s.txns.Keys
            && s'.done == (if commit then Will(s) + [s.txns[t].ops] else Will(s))
            && s'.durable == |s'.log| && s'.log == s.log + [if commit then Commit(t) else Rollback(t)]
            && forall loc :: MemVal(s', loc) == MemVal(s, loc)
  {
    EndIsLogged(s, t, commit);
    ReachStep(s, EndStep(t, commit));
    PersistAllDone(s.Append(if commit then Commit(t) else Rollback(t)).SetPhase(t, Ending(|s.log|, commit)));
  }

  lemma SharedUp(ls: LockState, t: TxnId, b: BlockId)
    ensures SameLocks(ls, ls.Share(t, b).Upgrade(t, b), t)
  {
  }

  lemma FinishStep(s: State, t: TxnId)
    requires s.Released(t) && s.locks.Held(t) == map[]
    ensures Enabled(s, Step.Finish(t)) && Apply(s, Step.Finish(t)) == s.(txns := s.txns - {t}) && s.mode.Running?
  {
  }

  lemma {:induction false} IdPositive(s: State, t: TxnId)
    requires Reachable(s) && s.mode.Running? && t in s.txns
    ensures 1 <= t <= s.lastId
  {
    ReachableOk(s);
    assert TxnOk(s, t);
  }

  /** The blocks of a transaction that has let go are free of exclusive locks. */
  lemma {:induction false} FreeAfter(s: State, s': State, t: TxnId, loc: Loc)
    requires Reachable(s) && s.locks.HoldsX(t, loc.block)
    requires Reachable(s') && s'.mode.Running? && s'.locks.Held(t) == map[]
    requires forall u :: u != t ==> s'.locks.Held(u) == s.locks.Held(u)
    ensures DiskVal(s', loc) == CommittedValue(s', loc) && MemVal(s', loc) == CommittedValue(s', loc)
  {
    forall u ensures !s'.locks.HoldsX(u, loc.block) {
      if s.locks.Holds(u, loc.block) {
        LocksExclude(s, t, u, loc.block);
      }
    }
    UnlockedIsCommitted(s', loc);
  }

  /** One turn of DoRollback: other transactions, what will commit, and other blocks stay as they are. */
  ghost predicate UndoWork(s: State, s': State, t: TxnId) {
    && OthersKept(s, s', t) && s'.locks == s.locks && s'.log == s.log && s'.mode == s.mode
    && s.durable <= |s.log| && s'.durable <= |s'.log| && Will(s') == Will(s)
    && forall l: Loc :: !s.locks.HoldsX(t, l.block) ==> MemVal(s', l) == MemVal(s, l)
  }

  lemma {:induction false} BeginIsWork(s: State, t: TxnId)
    requires Reachable(s) && Enabled(s, BeginUndo(t)) && s.durable <= |s.log|
    ensures UndoWork(s, Apply(s, BeginUndo(t)), t)
  {
    WillKept(s, Apply(s, BeginUndo(t)));
  }

  lemma {:induction false} UndoSame(s: State, t: TxnId)
    requires Reachable(s) && CanUndo(s, t)
    ensures s.txns[t].phase.pos > 0
    ensures ApplyUndo(s, t) == UndoResult(s, t)
  {
    ReachableOk(s);
    assert TxnOk(s, t);
    UndoReady(s, t);
    UndoForm(s, t);
  }

  lemma {:induction false} UndoIsWork(s: State, t: TxnId)
    requires Reachable(s) && CanUndo(s, t) && s.durable <= |s.log|
    ensures UndoWork(s, ApplyUndo(s, t), t)
  {
    var s' := ApplyUndo(s, t);
    UndoSame(s, t);
    forall l: Loc | !s.locks.HoldsX(t, l.block) ensures MemVal(s', l) == MemVal(s, l) {
      UndoTouchesOwn(s, t, l);
    }
    WillKept(s, s');
  }

  lemma {:induction false} PoolIsUndoWork(s: State, s': State, t: TxnId)
    requires s.durable <= |s.log| && PoolWork(s, s')
    ensures UndoWork(s, s', t)
  {
  }

  /** The blocks whose changes a rollback puts back are in the pool. */
  ghost predicate UndoneIn(log: seq<Record>, pos: nat, t: TxnId, pool: set<BlockId>)
    requires pos <= |log|
    decreases pos
  {
    pos == 0 ||
    var r := log[pos - 1];
    if Sets(r, t) then r.loc.block in pool && UndoneIn(log, pos - 1, t, pool)
    else r == Start(t) || UndoneIn(log, pos - 1, t, pool)
  }

  lemma UndoThenUndo(s: State, s1: State, s2: State, t: TxnId)
    requires UndoWork(s, s1, t) && UndoWork(s1, s2, t)
    ensures UndoWork(s, s2, t)
  {
  }

  // ---- The engine's steps behind recovery ----

  lemma {:induction false} PendingNone(log: seq<Record>, from: nat, txns: map<TxnId, Txn>)
    requires from <= |log| && forall i :: from <= i < |log| ==> !log[i].Commit?
    ensures Pending(log, from, txns) == []
    decreases |log|
  {
    if from < |log| {
      PendingNone(log[..|log| - 1], from, txns);
    }
  }

  /** During recovery no commit is on its way. */
  lemma {:induction false} RecoveryWill(s: State)
    requires Reachable(s) && !s.mode.Running? && !s.mode.Down?
    ensures s.durable <= |s.log| && Will(s) == s.done
  {
    ReachableOk(s);
    PendingNone(s.log, s.durable, s.txns);
  }

  /** Work on the way to the open database: nothing commits, the log does not change. */
  ghost predicate ScanWork(s: State, s': State) {
    s'.done == s.done && s'.log == s.log && s'.durable == |s'.log|
  }

  /** The blocks whose changes recovery puts back are in the pool. */
  ghost predicate ScannedIn(log: seq<Record>, pos: nat, finished: set<TxnId>, pool: set<BlockId>)
    requires pos <= |log|
    decreases pos
  {
    pos == 0 ||
    var r := log[pos - 1];
    r.Checkpoint? ||
    ((r.SetVal? && r.t !in finished ==> r.loc.block in pool) && ScannedIn(log, pos - 1, Seen(r, finished), pool))
  }

  lemma {:induction false} PoolIsScanWork(s: State, s': State)
    requires Reachable(s) && !s.mode.Running? && !s.mode.Down? && Reachable(s')
    requires s.durable <= |s.log| && PoolWork(s, s')
    ensures s'.done == s.done && s'.log == s.log && s'.mode == s.mode
  {
    RecoveryWill(s);
    RecoveryWill(s');
  }

  lemma {:induction false} ScanSets(s: State, t: TxnId, loc: Loc, was: Value)
    requires CanScan(s) && s.mode.pos > 0 && s.log[s.mode.pos - 1] == SetVal(t, loc, was)
    requires t !in s.mode.finished
    ensures loc.block in s.cache
    ensures var f := s.cache[loc.block];
            ApplyScan(s) ==
            s.(mode := Scanning(s.mode.pos - 1, s.mode.finished),
               locks := s.locks.Share(RecoveryTxn, loc.block).Upgrade(RecoveryTxn, loc.block),
               cache := s.cache[loc.block := Frame(f.page[loc.field := was], RecoveryTxn, f.lsn)])
  {
    ScanForm(s);
  }

  lemma {:induction false} ScanPasses(s: State)
    requires CanScan(s)
    requires s.mode.pos > 0 && s.log[s.mode.pos - 1].SetVal? ==> s.log[s.mode.pos - 1].t in s.mode.finished
    ensures ApplyScan(s) ==
            s.(mode := if s.mode.pos == 0 || s.log[s.mode.pos - 1].Checkpoint? then Scanned
                       else Scanning(s.mode.pos - 1, Seen(s.log[s.mode.pos - 1], s.mode.finished)))
  {
    if s.mode.pos > 0 && !s.log[s.mode.pos - 1].Checkpoint? {
      ScanForm(s);
    }
  }

  lemma {:induction false} CheckpointFacts(s: State)
    requires Reachable(s) && Enabled(s, LogCheckpoint) && s.durable <= |s.log|
    ensures var s' := PersistAll(Apply(s, LogCheckpoint));
            s'.done == s.done && s'.log == s.log + [Checkpoint] && s'.durable == |s'.log| && Enabled(s', Open)
  {
    ReachStep(s, LogCheckpoint);
    RecoveryWill(Apply(s, LogCheckpoint));
    PersistAllDone(Apply(s, LogCheckpoint));
  }

  /** Memory and disk are the database of the committed transactions. */
  ghost predicate Clean(s: State) {
    forall loc :: DiskVal(s, loc) == CommittedValue(s, loc) && MemVal(s, loc) == CommittedValue(s, loc)
  }

  lemma {:induction false} OpenedFacts(s: State)
    requires Reachable(s) && Enabled(s, Open)
    ensures Apply(s, Open) == s.(mode := Running) && Apply(s, Open).IsIn(RecoveryTxn, Active)
    ensures Clean(Apply(s, Open))
  {
    ReachableOk(s);
    var s' := s.(mode := Running);
    forall loc ensures DiskVal(s', loc) == CommittedValue(s', loc) && MemVal(s', loc) == CommittedValue(s', loc) {
      RecoveryCompletes(s, loc);
      assert MemVal(s', loc) == MemVal(s, loc) && DiskVal(s', loc) == DiskVal(s, loc);
    }
  }

  class Transaction {
    const db: Database
    const id: TxnId

    ghost predicate Active()
      reads db
    {
      db.Valid() && db.st.IsIn(id, Phase.Active)
    }

    ghost function Ops(): seq<Op>
      reads db
      requires Active()
    {
      db.st.txns[id].ops
    }

    constructor (db: Database)
      requires db.Valid() && db.st.mode.Running?
      modifies db`log, db`latestLsn, db`lastId, db`st
      ensures this.db == db && Active() && Ops() == [] && id !in old(db.st.txns)
      ensures db.st == Apply(old(db.st), Begin) && id == old(db.lastId) + 1
    {
      this.db := db;
      id := db.lastId + 1;
      new;
      ReachableOk(db.st);
      assert id in db.st.txns ==> TxnOk(db.st, id);
      var t := db.BeginTxn();
    }

    // ---- ConcurrencyManager over the shared lock table ----

    /** A refused request aborts the wait; the client may then roll back. */
    method SharedLock(b: BlockId) returns (ok: bool)
      requires Active()
      modifies db`locks, db`st
      ensures Active() && LockWork(old(db.st), db.st, id)
      ensures ok <==> forall u :: u != id ==> !old(db.locks).HoldsX(u, b)
      ensures db.locks == if ok then old(db.locks).Share(id, b) else old(db.locks)
      ensures db.locks.Held(id) == if ok then WithShared(old(db.locks).Held(id), b) else old(db.locks).Held(id)
    {
      LocksMean(db.st);
      NoneExclusive(db.locks, id, b);
      if db.locks.Holds(id, b) {
        return true;
      }
      if db.locks.Count(b) < 0 {
        return false;
      }
      db.locks := db.locks.Share(id, b);
      db.Take(ShareLock(id, b));
      return true;
    }

    /** A refused upgrade leaves the shared lock that was taken first. */
    method ExclusiveLock(b: BlockId) returns (ok: bool)
      requires Active()
      modifies db`locks, db`st
      ensures Active() && LockWork(old(db.st), db.st, id)
      ensures ok <==> forall u :: u != id ==> !old(db.locks).Holds(u, b)
      ensures ok ==> db.locks.Held(id) == old(db.locks).Held(id)[b := X]
      ensures !ok ==> db.locks.Held(id) == if exists u :: u != id && old(db.locks).HoldsX(u, b)
                                           then old(db.locks).Held(id) else WithShared(old(db.locks).Held(id), b)
    {
      hide Reachable, LockState.Meaning, LockState.Share;
      LocksMean(db.st);
      if db.locks.HoldsX(id, b) {
        OnlyOne(db.locks, id, b);
        assert db.locks.Held(id) == db.locks.Held(id)[b := X];
        return true;
      }
      ok := SharedLock(b);
      if !ok {
        assert forall u :: old(db.locks).HoldsX(u, b) ==> old(db.locks).Holds(u, b);
        return;
      }
      LocksMean(db.st);
      AloneIfUpgradable(old(db.locks), db.locks, id, b);
      if db.locks.Count(b) > 1 {
        return false;
      }
      Upgrade(b);
    }

    method Upgrade(b: BlockId)
      requires Active() && db.locks.Holds(id, b) && db.locks.CanUpgrade(b)
      modifies db`locks, db`st
      ensures Active() && LockWork(old(db.st), db.st, id) && db.locks.Held(id) == old(db.locks).Held(id)[b := X]
    {
      db.Take(UpgradeLock(id, b));
      assert db.locks.HoldsX(id, b) ==> db.locks.Held(id) == db.locks.Held(id)[b := X];
      db.locks := db.locks.Upgrade(id, b);
    }

    // ---- Transaction ----

    method GetVal(loc: Loc) returns (status: Status, v: Value)
      requires Active()
      modifies db`locks, db`st
      ensures Active() && ClientWork(old(db.st), db.st, id)
      ensures forall l :: MemVal(db.st, l) == old(MemVal(db.st, l))
      ensures status == Ok ==>
                v == MemVal(db.st, loc) && v == Look(ApplyOps(ReplayAll(map[], db.st.done), old(Ops())), loc)
      ensures Ops() == if status == Ok then old(Ops()) + [Read(loc, v)] else old(Ops())
      ensures status == if exists u :: u != id && old(db.locks).HoldsX(u, loc.block) then LockAbort
                        else if db.Pinned(id, loc.block) then Ok else NotPinned
      ensures db.locks.Held(id) == if status == LockAbort then old(db.locks).Held(id)
                                   else WithShared(old(db.locks).Held(id), loc.block)
      ensures forall u, b :: db.locks.HoldsX(u, b) == old(db.locks).HoldsX(u, b)
    {
      v := Zero(loc.field);
      var ok := SharedLock(loc.block);
      LocksAreWork(old(db.st), db.st, id);
      if !ok {
        return LockAbort, v;
      }
      if !db.Pinned(id, loc.block) {
        return NotPinned, v;
      }
      assert ListOk(db.pins[id], db.cache.Keys);
      ghost var locked := db.st;
      v := ReadLocked(loc);
      ClientThenClient(old(db.st), locked, db.st, id);
      status := Ok;
    }

    method ReadLocked(loc: Loc) returns (v: Value)
      requires Active() && db.locks.Holds(id, loc.block) && loc.block in db.cache
      modifies db`st
      ensures Active() && ClientWork(old(db.st), db.st, id)
      ensures forall l :: MemVal(db.st, l) == old(MemVal(db.st, l))
      ensures v == MemVal(db.st, loc) && v == Look(ApplyOps(ReplayAll(map[], db.st.done), old(Ops())), loc)
      ensures Ops() == old(Ops()) + [Read(loc, v)]
    {
      v := Get(db.cache[loc.block].page, loc.field);
      ReadsAreClean(db.st, id, loc);
      db.Take(ReadValue(id, loc));
      WillKept(old(db.st), db.st);
    }

    /** RecoveryManager::SetInt and the change that follows it, on a locked and pinned block. */
    method LogAndChange(loc: Loc, v: Value)
      requires Active() && db.locks.HoldsX(id, loc.block) && loc.block in db.cache
      modifies db`log, db`latestLsn, db`cache, db`st
      ensures Active() && ClientWork(old(db.st), db.st, id)
      ensures db.log == old(db.log) + [Record.SetVal(id, loc, old(MemVal(db.st, loc)))]
      ensures Ops() == old(Ops()) + [Write(loc, v)]
      ensures MemVal(db.st, loc) == v
      ensures forall l :: l != loc ==> MemVal(db.st, l) == old(MemVal(db.st, l))
    {
      WriteIsWork(db.st, id, loc, v);
      var lsn := LogOldValue(loc, v);
      db.cache := db.cache[loc.block := Frame(db.cache[loc.block].page[loc.field := v], id, lsn)];
      db.Take(ChangePage(id));
    }

    method LogOldValue(loc: Loc, ghost v: Value) returns (lsn: int)
      requires Active() && db.locks.HoldsX(id, loc.block) && loc.block in db.cache
      modifies db`log, db`latestLsn, db`st
      ensures db.Valid() && db.st == ApplyLogOld(old(db.st), id, loc, v)
      ensures lsn == old(db.st.NextLsn()) && lsn >= 0
    {
      var was := Get(db.cache[loc.block].page, loc.field);
      lsn := db.Append(Record.SetVal(id, loc, was), LogOld(id, loc, v));
    }

    /** A logged SetInt or SetString: lock, log the old value, change the page, mark it modified. */
    method SetVal(loc: Loc, v: Value) returns (status: Status)
      requires Active()
      modifies db`locks, db`log, db`latestLsn, db`cache, db`st
      ensures Active() && ClientWork(old(db.st), db.st, id)
      ensures status == Ok ==>
                && db.log == old(db.log) + [Record.SetVal(id, loc, old(MemVal(db.st, loc)))]
                && Ops() == old(Ops()) + [Write(loc, v)]
                && MemVal(db.st, loc) == v
      ensures forall l :: l != loc || status != Ok ==> MemVal(db.st, l) == old(MemVal(db.st, l))
      ensures status != Ok ==> db.log == old(db.log) && Ops() == old(Ops())
      ensures status == if exists u :: u != id && old(db.locks).Holds(u, loc.block) then LockAbort
                        else if db.Pinned(id, loc.block) then Ok else NotPinned
      ensures status != LockAbort ==> db.locks.Held(id) == old(db.locks).Held(id)[loc.block := X]
      ensures status == LockAbort ==>
                db.locks.Held(id) == if exists u :: u != id && old(db.locks).HoldsX(u, loc.block)
                                     then old(db.locks).Held(id) else WithShared(old(db.locks).Held(id), loc.block)
    {
      var ok := ExclusiveLock(loc.block);
      LocksAreWork(old(db.st), db.st, id);
      if !ok {
        return LockAbort;
      }
      if !db.Pinned(id, loc.block) {
        return NotPinned;
      }
      assert ListOk(db.pins[id], db.cache.Keys);
      ghost var locked := db.st;
      LogAndChange(loc, v);
      ClientThenClient(old(db.st), locked, db.st, id);
      status := Ok;
    }

    /** ConcurrencyManager::Release, then BufferList::UnpinAll. */
    method Finish()
      requires db.Valid() && db.st.Released(id)
      modifies db`locks, db`pins, db`st
      ensures db.Valid() && db.st == old(db.st).(locks := db.st.locks, txns := old(db.st.txns) - {id})
      ensures db.locks.Held(id) == map[] && db.pins == old(db.pins) - {id}
      ensures SameLocks(old(db.locks), db.locks, id)
    {
      ReleaseAll();
      PinsLess(db.pins, db.cache.Keys, id);
      FinishStep(db.st, id);
      hide Reachable, SameLocks, PinsOk, Enabled, Apply, State.Released;
      db.Take(Step.Finish(id));
      db.pins := db.pins - {id};
    }

    method ReleaseAll()
      requires db.Valid() && db.st.Released(id)
      modifies db`locks, db`st
      ensures db.Valid() && db.st == old(db.st).(locks := db.st.locks)
      ensures db.locks.Held(id) == map[] && SameLocks(old(db.locks), db.locks, id)
    {
      hide Reachable, PinsOk;
      var todo := db.locks.Held(id).Keys;
      while todo != {}
        invariant db.Valid() && db.st == old(db.st).(locks := db.st.locks)
        invariant todo == db.locks.Held(id).Keys && SameLocks(old(db.locks), db.locks, id)
      {
        var b :| b in todo;
        todo := todo - {b};
        ReleaseOne(b);
      }
      assert db.locks.Held(id) == map[];
    }

    method ReleaseOne(b: BlockId)
      requires db.Valid() && db.st.Released(id) && db.locks.Holds(id, b)
      modifies db`locks, db`st
      ensures db.Valid() && db.st == old(db.st).(locks := db.st.locks)
      ensures db.locks.Held(id) == old(db.locks).Held(id) - {b} && SameLocks(old(db.locks), db.locks, id)
    {
      hide Reachable, PinsOk;
      db.Take(Release(id, b));
      db.locks := db.locks.Unlock(id, b);
    }

    /** Write the COMMIT or ROLLBACK record and the log page with it. */
    method LogEnd(commit: bool)
      requires db.Valid() && db.st.IsIn(id, if commit then Phase.Active else Undone) && !db.st.Owns(id)
      modifies db`log, db`latestLsn, db`durable, db`savedLsn, db`st
      ensures db.Valid() && db.st.Released(id) && OthersKept(old(db.st), db.st, id)
      ensures db.st.txns.Keys == old(db.st.txns.Keys)
      ensures db.st.done == if commit then Will(old(db.st)) + [old(db.st.txns[id].ops)] else Will(old(db.st))
      ensures db.st.durable == |db.st.log|
      ensures db.log == old(db.log) + [if commit then Record.Commit(id) else Record.Rollback(id)]
      ensures forall loc :: MemVal(db.st, loc) == old(MemVal(db.st, loc))
    {
      IdPositive(db.st, id);
      EndedFacts(db.st, id, commit);
      var lsn := db.Append(if commit then Record.Commit(id) else Record.Rollback(id), EndStep(id, commit));
      db.FlushLog(lsn);
    }

    /** Force the pages, then the COMMIT record; only then let go. */
    method Commit()
      requires Active()
      modifies db
      ensures db.Valid() && db.st.mode.Running? && id !in db.st.txns && OthersKept(old(db.st), db.st, id)
      ensures db.st.done == Will(old(db.st)) + [old(Ops())] && db.st.durable == |db.st.log|
      ensures db.st.log == old(db.st.log) + [Record.Commit(id)]
      ensures forall loc :: MemVal(db.st, loc) == old(MemVal(db.st, loc))
      ensures forall loc: Loc :: old(db.locks.HoldsX(id, loc.block)) ==>
                DiskVal(db.st, loc) == CommittedValue(db.st, loc) && MemVal(db.st, loc) == CommittedValue(db.st, loc)
      ensures db.locks.Held(id) == map[] && db.pins == old(db.pins) - {id}
    {
      IdPositive(db.st, id);
      db.FlushAll(id);
      LogEnd(true);
      Finish();
      forall loc: Loc | old(db.locks.HoldsX(id, loc.block))
        ensures DiskVal(db.st, loc) == CommittedValue(db.st, loc) && MemVal(db.st, loc) == CommittedValue(db.st, loc)
      {
        FreeAfter(old(db.st), db.st, id, loc);
      }
    }

    /** The unlogged SetInt of an undo. Its lock is held already. */
    method PutBack(ghost pos: nat, loc: Loc, was: Value)
      requires db.Valid() && db.st.IsIn(id, Undoing(pos)) && 0 < pos <= |db.log|
      requires db.log[pos - 1] == Record.SetVal(id, loc, was) && loc.block in db.cache
      modifies db`cache, db`st
      ensures db.Valid() && UndoWork(old(db.st), db.st, id)
      ensures db.st.IsIn(id, Undoing(pos - 1)) && MemVal(db.st, loc) == was && db.cache.Keys == old(db.cache.Keys)
    {
      UndoSame(db.st, id);
      UndoIsWork(db.st, id);
      var f := db.cache[loc.block];
      db.cache := db.cache[loc.block := Frame(f.page[loc.field := was], id, f.lsn)];
      db.Take(UndoOne(id));
    }

    /** SetIntRecord::Undo: pin, put the old value back, unpin. */
    method Undo(ghost pos: nat, loc: Loc, was: Value) returns (ok: bool)
      requires db.Valid() && db.st.IsIn(id, Undoing(pos)) && 0 < pos <= |db.log|
      requires db.log[pos - 1] == Record.SetVal(id, loc, was)
      modifies db
      ensures db.Valid() && UndoWork(old(db.st), db.st, id)
      ensures db.st.IsIn(id, Undoing(if ok then pos - 1 else pos))
      ensures ok ==> MemVal(db.st, loc) == was
      ensures ok == old(loc.block in db.cache || db.Room()) && SamePins(old(db.pins), db.pins)
      ensures db.Room() == old(db.Room()) && (!db.Room() ==> db.cache.Keys == old(db.cache.Keys))
    {
      hide SamePins;
      PinsBack(db.pins, db.cache.Keys, id, loc.block);
      ok := db.Pin(id, loc.block);
      PoolIsUndoWork(old(db.st), db.st, id);
      if ok {
        ghost var pinned := db.st;
        assert db.Pinned(id, loc.block);
        RoomBack(old(db.pins), old(db.cache.Keys), db.cache.Keys, id, loc.block, db.numBuffers);
        PutBack(pos, loc, was);
        UndoThenUndo(old(db.st), pinned, db.st, id);
        db.Unpin(id, loc.block);
      }
    }

    /** The log iterator of DoRollback writes the log page out and starts at the end of the log. */
    method BeginRollback() returns (pos: nat)
      requires Active()
      modifies db`durable, db`savedLsn, db`st
      ensures db.Valid() && UndoWork(old(db.st), db.st, id)
      ensures pos == |db.log| && db.st.IsIn(id, Undoing(pos))
    {
      db.WriteLogPage();
      FlushIsWork(old(db.st));
      PoolIsUndoWork(old(db.st), db.st, id);
      ghost var before := db.st;
      BeginIsWork(before, id);
      db.Take(BeginUndo(id));
      UndoThenUndo(old(db.st), before, db.st, id);
      pos := |db.log|;
    }

    /** A record of another transaction, or the own START record. */
    method Pass(pos: nat)
      requires db.Valid() && db.st.IsIn(id, Undoing(pos)) && pos <= |db.log|
      requires pos > 0 ==> !Sets(db.log[pos - 1], id)
      modifies db`st
      ensures db.Valid() && UndoWork(old(db.st), db.st, id)
      ensures db.st.IsIn(id, if pos == 0 || db.log[pos - 1] == Start(id) then Undone else Undoing(pos - 1))
    {
      UndoIsWork(db.st, id);
      UndoSame(db.st, id);
      db.Take(UndoOne(id));
    }

    /** Scan the log backwards to the START record, undoing this transaction's changes. */
    method DoRollback() returns (ok: bool)
      requires Active()
      modifies db
      ensures db.Valid() && UndoWork(old(db.st), db.st, id)
      ensures ok ==> db.st.IsIn(id, Undone)
      ensures SamePins(old(db.pins), db.pins)
      ensures ok == old(db.Room() || UndoneIn(db.log, |db.log|, id, db.cache.Keys))
    {
      hide Reachable, PinsOk, RoomIn, MemVal, OthersKept, Will;
      ghost var pool, room := db.cache.Keys, db.Room();
      var pos: nat := BeginRollback();
      ghost var before;
      while pos > 0
        invariant db.Valid() && UndoWork(old(db.st), db.st, id)
        invariant pos <= |db.log| && db.st.IsIn(id, Undoing(pos))
        invariant db.Room() == room && (!room ==> db.cache.Keys == pool)
        invariant db.log == old(db.log) && SamePins(old(db.pins), db.pins)
        invariant room || UndoneIn(db.log, |db.log|, id, pool) == UndoneIn(db.log, pos, id, pool)
      {
        var record := db.log[pos - 1];
        before := db.st;
        if Sets(record, id) {
          ok := Undo(pos, record.loc, record.was);
          UndoThenUndo(old(db.st), before, db.st, id);
          if !ok {
            return;
          }
        } else {
          Pass(pos);
          UndoThenUndo(old(db.st), before, db.st, id);
          if record == Start(id) {
            return true;
          }
        }
        pos := pos - 1;
      }
      before := db.st;
      Pass(0);
      UndoThenUndo(old(db.st), before, db.st, id);
      ok := true;
    }

    /** Force the undone pages, then the ROLLBACK record; only then let go. */
    method EndRollback()
      requires db.Valid() && db.st.IsIn(id, Undone)
      modifies db
      ensures db.Valid() && OthersKept(old(db.st), db.st, id)
      ensures db.st.mode.Running? && id !in db.st.txns && db.locks.Held(id) == map[] && db.pins == old(db.pins) - {id}
      ensures db.st.done == Will(old(db.st)) && db.st.durable == |db.st.log|
      ensures db.st.log == old(db.st.log) + [Record.Rollback(id)]
      ensures forall loc :: MemVal(db.st, loc) == old(MemVal(db.st, loc))
    {
      IdPositive(db.st, id);
      db.FlushAll(id);
      LogEnd(false);
      Finish();
    }

    /** It fails only when a change must be put back in a block that is not in the pool and the pool has no room. */
    method Rollback() returns (ok: bool)
      requires Active()
      modifies db
      ensures ok == old(db.Room() || UndoneIn(db.log, |db.log|, id, db.cache.Keys))
      ensures db.Valid() && OthersKept(old(db.st), db.st, id)
      ensures ok ==> db.st.mode.Running? && id !in db.st.txns && db.locks.Held(id) == map[] && id !in db.pins
      ensures forall u :: u != id ==> PinsOf(db.pins, u) == PinsOf(old(db.pins), u)
      ensures ok ==> db.st.done == Will(old(db.st)) && db.st.durable == |db.st.log|
      ensures db.log == if ok then old(db.log) + [Record.Rollback(id)] else old(db.log)
      ensures forall loc: Loc :: !old(db.locks.HoldsX(id, loc.block)) ==> MemVal(db.st, loc) == old(MemVal(db.st, loc))
      ensures ok ==> forall loc: Loc :: old(db.locks.HoldsX(id, loc.block)) ==>
                DiskVal(db.st, loc) == CommittedValue(db.st, loc) && MemVal(db.st, loc) == CommittedValue(db.st, loc)
    {
      ok := DoRollback();
      if ok {
        EndRollback();
        forall loc: Loc | old(db.locks.HoldsX(id, loc.block))
          ensures DiskVal(db.st, loc) == CommittedValue(db.st, loc) && MemVal(db.st, loc) == CommittedValue(db.st, loc)
        {
          FreeAfter(old(db.st), db.st, id, loc);
        }
      }
    }

    // ---- Recovery, by the first transaction of a restarted server ----

    constructor Recoverer(db: Database)
      requires db.Valid() && db.st.mode.Scanning?
      ensures this.db == db && id == RecoveryTxn
    {
      this.db := db;
      id := RecoveryTxn;
    }

    ghost predicate Recovering(pos: nat, finished: set<TxnId>)
      reads db
    {
      db.Valid() && id == RecoveryTxn && db.st.mode == Scanning(pos, finished) && pos <= |db.log|
    }

    method ScanPutBack(ghost pos: nat, ghost finished: set<TxnId>, t: TxnId, loc: Loc, was: Value)
      requires Recovering(pos, finished) && pos > 0 && db.durable == |db.log| && loc.block in db.cache
      requires db.log[pos - 1] == Record.SetVal(t, loc, was) && t !in finished
      modifies db`locks, db`cache, db`st
      ensures Recovering(pos - 1, finished) && ScanWork(old(db.st), db.st) && MemVal(db.st, loc) == was
      ensures SameLocks(old(db.locks), db.locks, id)
      ensures db.cache.Keys == old(db.cache.Keys)
    {
      SharedUp(db.locks, id, loc.block);
      hide Reachable, SameLocks, LockState.Share, LockState.Upgrade;
      ScanSets(db.st, t, loc, was);
      db.locks := db.locks.Share(id, loc.block).Upgrade(id, loc.block);
      var f := db.cache[loc.block];
      db.cache := db.cache[loc.block := Frame(f.page[loc.field := was], id, f.lsn)];
      db.Take(ScanOne);
    }

    method ScanUndo(ghost pos: nat, ghost finished: set<TxnId>, t: TxnId, loc: Loc, was: Value) returns (ok: bool)
      requires Recovering(pos, finished) && pos > 0 && db.durable == |db.log|
      requires db.log[pos - 1] == Record.SetVal(t, loc, was) && t !in finished
      modifies db
      ensures ok ==> Recovering(pos - 1, finished) && MemVal(db.st, loc) == was
      ensures db.Valid() && ScanWork(old(db.st), db.st) && SameLocks(old(db.locks), db.locks, id)
      ensures ok == old(loc.block in db.cache || db.Room()) && SamePins(old(db.pins), db.pins)
      ensures db.Room() == old(db.Room()) && (!db.Room() ==> db.cache.Keys == old(db.cache.Keys))
    {
      hide SamePins;
      PinsBack(db.pins, db.cache.Keys, id, loc.block);
      ok := db.Pin(id, loc.block);
      PoolIsScanWork(old(db.st), db.st);
      if ok {
        assert db.Pinned(id, loc.block);
        RoomBack(old(db.pins), old(db.cache.Keys), db.cache.Keys, id, loc.block, db.numBuffers);
        ScanPutBack(pos, finished, t, loc, was);
        db.Unpin(id, loc.block);
      }
    }

    method ScanPass(ghost pos: nat, ghost finished: set<TxnId>)
      requires Recovering(pos, finished) && db.durable == |db.log|
      requires pos > 0 && db.log[pos - 1].SetVal? ==> db.log[pos - 1].t in finished
      modifies db`st
      ensures db.Valid() && ScanWork(old(db.st), db.st)
      ensures if pos == 0 || db.log[pos - 1].Checkpoint? then db.st.mode == Scanned
              else Recovering(pos - 1, Seen(db.log[pos - 1], finished))
    {
      ScanPasses(db.st);
      db.Take(ScanOne);
    }

    /** Scan backwards to the last checkpoint, undoing the changes of unfinished transactions. */
    method DoRecover() returns (ok: bool)
      requires Recovering(|db.log|, {}) && db.durable == |db.log|
      modifies db
      ensures db.Valid() && ScanWork(old(db.st), db.st)
      ensures ok ==> db.st.mode == Scanned
      ensures SamePins(old(db.pins), db.pins) && SameLocks(old(db.locks), db.locks, id)
      ensures ok == old(db.Room() || ScannedIn(db.log, |db.log|, {}, db.cache.Keys))
    {
      hide Reachable, PinsOk, RoomIn, MemVal;
      ghost var pool, room := db.cache.Keys, db.Room();
      var finished: set<TxnId> := {};
      var pos: nat := |db.log|;
      while pos > 0
        invariant Recovering(pos, finished) && ScanWork(old(db.st), db.st)
        invariant db.Room() == room && (!room ==> db.cache.Keys == pool)
        invariant db.log == old(db.log) && SamePins(old(db.pins), db.pins) && SameLocks(old(db.locks), db.locks, id)
        invariant room || ScannedIn(db.log, |db.log|, {}, pool) == ScannedIn(db.log, pos, finished, pool)
      {
        var record := db.log[pos - 1];
        if record.SetVal? && record.t !in finished {
          ok := ScanUndo(pos, finished, record.t, record.loc, record.was);
          if !ok {
            return;
          }
        } else {
          ScanPass(pos, finished);
          if record.Checkpoint? {
            return true;
          }
          finished := if record.Commit? || record.Rollback? then finished + {record.t} else finished;
        }
        pos := pos - 1;
      }
      ScanPass(pos, finished);
      ok := true;
    }

    /** After recovery, memory and disk are the database of the committed transactions, and clients may come. It fails
        only when a change must be put back in a block that is not in the pool and the pool has no room. */
    method Recover() returns (ok: bool)
      requires Recovering(|db.log|, {})
      modifies db
      ensures ok == old(db.Room() || ScannedIn(db.log, |db.log|, {}, db.cache.Keys))
      ensures db.Valid() && db.st.done == old(db.st.done)
      ensures SamePins(old(db.pins), db.pins) && SameLocks(old(db.locks), db.locks, id)
      ensures !ok ==> db.log == old(db.log)
      ensures ok ==> Active() && db.log == old(db.log) + [Checkpoint] && db.durable == |db.log|
      ensures ok ==> Clean(db.st)
    {
      db.FlushAll(id);
      PoolIsScanWork(old(db.st), db.st);
      ghost var before := db.st;
      FlushIsWork(before);
      db.WriteLogPage();
      PoolIsScanWork(before, db.st);
      ok := DoRecover();
      if ok {
        EndRecovery();
      }
    }

    method EndRecovery()
      requires db.Valid() && id == RecoveryTxn && db.st.mode == Scanned
      modifies db`durable, db`savedLsn, db`disk, db`cache, db`log, db`latestLsn, db`st
      ensures Active() && db.st.done == old(db.st.done) && db.log == old(db.log) + [Checkpoint]
      ensures db.durable == |db.log| && Clean(db.st)
    {
      hide Reachable, PinsOk, MemVal, Clean;
      db.FlushAll(id);
      PoolIsScanWork(old(db.st), db.st);
      CheckpointFacts(db.st);
      var lsn := db.Append(Checkpoint, LogCheckpoint);
      db.FlushLog(lsn);
      OpenedFacts(db.st);
      db.Take(Open);
    }
  }

  lemma NoneOfTwo(ls: LockState, t: TxnId, u: TxnId, b: BlockId)
    requires ls.Meaning() && t != u && ls.Holds(t, b) && ls.Holds(u, b)
    ensures forall w :: !ls.HoldsX(w, b)
  {
    forall w ensures !ls.HoldsX(w, b) {
      if ls.HoldsX(w, b) {
        OnlyOne(ls, w, b);
      }
    }
  }

  /** The server over what a crash left: with a buffer in its pool it recovers, and has the committed database of the
      moment of the crash, on disk and in memory. */
  method RestartAndRecover(numBuffers: nat, disk: Disk, log: seq<Record>, ghost crashed: State)
    returns (db: Database, ok: bool)
    requires Reachable(crashed) && crashed.mode.Down? && crashed.disk == disk && crashed.log == log
    ensures fresh(db) && db.Valid() && db.st.done == crashed.done
    ensures ok <==> numBuffers > 0 || ScannedIn(log + [Start(RecoveryTxn)], |log| + 1, {}, {})
    ensures ok ==> db.st.mode.Running? && forall loc ::
              DiskVal(db.st, loc) == CommittedValue(crashed, loc) && MemVal(db.st, loc) == CommittedValue(crashed, loc)
  {
    RestartFacts(crashed);
    hide Reachable, Apply, Enabled, Clean, MemVal, PinsOk, ScannedIn, RoomIn, CommittedValue, DiskVal, SamePins, SameLocks;
    db := new Database.Reopen(numBuffers, disk, log, crashed);
    NoBlocks(db.pins, numBuffers);
    assert db.cache.Keys == {};
    var t := new Transaction.Recoverer(db);
    ok := t.Recover();
    if ok {
      CleanAs(db.st, crashed);
    }
  }

  lemma {:induction false} RestartFacts(s: State)
    requires s.mode.Down?
    ensures Enabled(s, Restart) && Apply(s, Restart).log == s.log + [Start(RecoveryTxn)]
    ensures Apply(s, Restart).mode == Scanning(|s.log| + 1, {}) && Apply(s, Restart).done == s.done
  {
  }

  lemma NoBlocks(pins: map<TxnId, map<BlockId, nat>>, numBuffers: nat)
    ensures RoomIn({}, pins, numBuffers) <==> numBuffers > 0
  {
  }

  lemma CleanAs(s: State, before: State)
    requires Clean(s) && s.done == before.done
    ensures forall loc :: DiskVal(s, loc) == CommittedValue(before, loc) && MemVal(s, loc) == CommittedValue(before, loc)
  {
  }

  /** A block that nobody has exclusively can be read by two transactions in turn; both find the committed value. */
  method ReadInTurn(t1: Transaction, t2: Transaction, loc: Loc) returns (status1: Status, status2: Status)
    requires t1.db == t2.db && t1.id != t2.id && t1.Active() && t2.Active()
    requires t1.db.Pinned(t1.id, loc.block) && t1.db.Pinned(t2.id, loc.block)
    requires forall u :: !t1.db.locks.HoldsX(u, loc.block)
    modifies t1.db`locks, t1.db`st
    ensures t1.Active() && t2.Active() && status1 == Ok && status2 == Ok
    ensures t1.Ops() == old(t1.Ops()) + [Read(loc, old(CommittedValue(t1.db.st, loc)))]
    ensures t2.Ops() == old(t2.Ops()) + [Read(loc, old(CommittedValue(t1.db.st, loc)))]
    ensures t1.db.locks.Holds(t1.id, loc.block) && t1.db.locks.Holds(t2.id, loc.block)
    ensures forall u :: !t1.db.locks.HoldsX(u, loc.block)
  {
    UnlockedIsCommitted(t1.db.st, loc);
    var v1, v2;
    status1, v1 := t1.GetVal(loc);
    assert forall u :: !t1.db.locks.HoldsX(u, loc.block);
    status2, v2 := t2.GetVal(loc);
  }

  /** A transaction that is alone on a block can read it and then write it. */
  method ReadThenWrite(t: Transaction, loc: Loc, v: Value) returns (status1: Status, status2: Status)
    requires t.Active() && t.db.Pinned(t.id, loc.block) && forall u :: u != t.id ==> !t.db.locks.Holds(u, loc.block)
    modifies t.db`locks, t.db`log, t.db`latestLsn, t.db`cache, t.db`st
    ensures t.Active() && status1 == Ok && status2 == Ok
    ensures t.Ops() == old(t.Ops()) + [Read(loc, old(MemVal(t.db.st, loc))), Write(loc, v)]
    ensures MemVal(t.db.st, loc) == v && t.db.locks.HoldsX(t.id, loc.block)
  {
    var was;
    hide Reachable, MemVal, ApplyOps, ReplayAll, Look, Will;
    assert forall u :: u != t.id && t.db.locks.HoldsX(u, loc.block) ==> t.db.locks.Holds(u, loc.block);
    status1, was := t.GetVal(loc);
    assert forall u :: u != t.id ==> t.db.locks.Held(u) == old(t.db.locks).Held(u);
    assert forall u :: u != t.id && t.db.locks.Holds(u, loc.block) ==> old(t.db.locks).Holds(u, loc.block);
    status2 := t.SetVal(loc, v);
  }

  /** Two readers of a block refuse each other the write, whoever asks first; nothing has changed. */
  method NeitherWrites(t1: Transaction, t2: Transaction, loc: Loc, v1: Value, v2: Value)
    returns (status1: Status, status2: Status)
    requires t1.db == t2.db && t1.id != t2.id && t1.Active() && t2.Active()
    requires t1.db.locks.Holds(t1.id, loc.block) && t1.db.locks.Holds(t2.id, loc.block)
    modifies t1.db`locks, t1.db`log, t1.db`latestLsn, t1.db`cache, t1.db`st
    ensures t1.Active() && t2.Active() && status1 == LockAbort && status2 == LockAbort
    ensures t1.db.log == old(t1.db.log) && forall u :: t1.db.locks.Held(u) == old(t1.db.locks).Held(u)
    ensures forall l :: MemVal(t1.db.st, l) == old(MemVal(t1.db.st, l))
  {
    LocksMean(t1.db.st);
    NoneOfTwo(t1.db.locks, t1.id, t2.id, loc.block);
    hide Reachable, MemVal, ApplyOps, ReplayAll, Look, Will;
    status1 := t1.SetVal(loc, v1);
    assert t1.db.locks.Held(t1.id) == old(t1.db.locks).Held(t1.id);
    assert t1.db.locks.Holds(t1.id, loc.block);
    status2 := t2.SetVal(loc, v2);
  }

  lemma ClientThenClient(s: State, s1: State, s2: State, t: TxnId)
    requires ClientWork(s, s1, t) && ClientWork(s1, s2, t)
    ensures ClientWork(s, s2, t)
  {
  }
}
