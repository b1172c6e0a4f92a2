/** What the engine guarantees over all its runs. */
module CrashSafety {
  import opened Storage
  import opened Locks
  import opened History
  import opened Engine
  import opened EngineInvariant
  import opened EngineSteps
  import opened EngineRecovery

  lemma {:induction false} NewOk()
    ensures Inv(NewDatabase)
  {
    assert forall b :: NoLocks.Holders(b) == {} && NoLocks.BlockMeaning(b);
  }

  predicate ClientStep(step: Step) {
    step.Begin? || step.ShareLock? || step.UpgradeLock? || step.ReadValue? || step.LogOld? || step.ChangePage?
  }

  predicate EndingStep(step: Step) {
    step.LogCommit? || step.BeginUndo? || step.UndoOne? || step.LogRollback? || step.Release? || step.Finish?
  }

  lemma {:induction false} UpIsInv(s: State)
    ensures s.mode.Running? ==> Up(s) == Inv(s)
  {
  }

  lemma {:induction false} ClientKeeps(s: State, step: Step)
    requires Inv(s) && Enabled(s, step) && ClientStep(step)
    ensures Inv(Apply(s, step))
  {
    UpIsInv(s);
    UpIsInv(Apply(s, step));
    match step {
      case Begin => StepBegin(s);
      case ShareLock(t, b) => StepShare(s, t, b);
      case UpgradeLock(t, b) => StepUpgrade(s, t, b);
      case ReadValue(t, loc) => StepReadValue(s, t, loc);
      case LogOld(t, loc, v) => StepLogOld(s, t, loc, v);
      case ChangePage(t) => StepChangePage(s, t);
    }
  }

  lemma {:induction false} EndingKeeps(s: State, step: Step)
    requires Inv(s) && Enabled(s, step) && EndingStep(step)
    ensures Inv(Apply(s, step))
  {
    UpIsInv(s);
    UpIsInv(Apply(s, step));
    match step {
      case LogCommit(t) => StepLogEnd(s, t, true);
      case BeginUndo(t) => StepBeginUndo(s, t);
      case UndoOne(t) => StepUndoOne(s, t);
      case LogRollback(t) => StepLogEnd(s, t, false);
      case Release(t, b) => StepRelease(s, t, b);
      case Finish(t) => StepFinish(s, t);
    }
  }

  lemma {:induction false} SystemKeeps(s: State, step: Step)
    requires Inv(s) && Enabled(s, step) && !ClientStep(step) && !EndingStep(step)
    ensures Inv(Apply(s, step))
  {
    match step {
      case Fetch(b, lsn) => StepFetch(s, b, lsn);
      case WritePage(b) => StepWritePage(s, b);
      case Evict(b) => StepEvict(s, b);
      case Persist => StepPersist(s);
      case Crash => StepCrash(s);
      case Restart => StepRestart(s);
      case ScanOne => StepScanOne(s);
      case LogCheckpoint => StepLogCheckpoint(s);
      case Open => StepOpen(s);
    }
  }

  lemma {:induction false} StepKeeps(s: State, step: Step)
    requires Inv(s) && Enabled(s, step)
    ensures Inv(Apply(s, step))
  {
    if ClientStep(step) {
      ClientKeeps(s, step);
    } else if EndingStep(step) {
      EndingKeeps(s, step);
    } else {
      SystemKeeps(s, step);
    }
  }

  lemma {:induction false} StepPersist(s: State)
    requires Inv(s) && CanPersist(s)
    ensures Inv(ApplyPersist(s))
  {
    if s.mode.Running? {
      StepPersistRunning(s);
    } else {
      StepPersistRecovering(s);
    }
  }

  lemma {:induction false} RunKeeps(s: State, steps: seq<Step>)
    requires Inv(s) && ValidRun(s, steps)
    ensures Inv(RunFrom(s, steps))
    decreases |steps|
  {
    if steps != [] {
      StepKeeps(s, steps[0]);
      RunKeeps(Apply(s, steps[0]), steps[1..]);
    }
  }

  lemma {:induction false} ReachableOk(s: State)
    requires Reachable(s)
    ensures Inv(s)
  {
    var steps :| ValidRun(NewDatabase, steps) && RunFrom(NewDatabase, steps) == s;
    NewOk();
    RunKeeps(NewDatabase, steps);
  }

  /** The database left by the durably committed transactions, run one after another. */
  function CommittedValue(s: State, loc: Loc): Value {
    Look(ReplayAll(map[], s.done), loc)
  }

  /** A crash can come at any moment, in recovery too, and a restart after it; neither changes what is committed. */
  lemma {:induction false} AnyMoment(s: State)
    requires Reachable(s)
    ensures Enabled(s, Crash) && Enabled(Apply(s, Crash), Restart)
    ensures var down := Apply(s, Crash);
            down.disk == s.disk && down.log == s.log[..s.durable] && down.done == s.done &&
            Apply(down, Restart).disk == s.disk && Apply(down, Restart).done == s.done
  {
    ReachableOk(s);
  }

  /**
   * Crash safety. After any run, with any crashes and restarts in it, a recovery from what is on
   * disk now would give every location its value from the transactions with durable COMMIT records.
   */
  lemma {:induction false} CrashAnywhere(s: State, loc: Loc)
    requires Reachable(s)
    ensures s.durable <= |s.log|
    ensures Recovered(s.disk, s.log[..s.durable], loc) == CommittedValue(s, loc)
  {
    ReachableOk(s);
    AlwaysRecoverable(s);
    assert Restores(s, s.durable, loc);
    OldestPrefix(s.log[..s.durable], s.log, s.durable, {}, loc);
  }

  /** When recovery lets clients in, disk and memory hold exactly the committed database. */
  lemma {:induction false} RecoveryCompletes(s: State, loc: Loc)
    requires Reachable(s) && Enabled(s, Open)
    ensures DiskVal(s, loc) == CommittedValue(s, loc) && MemVal(s, loc) == CommittedValue(s, loc)
  {
    ReachableOk(s);
    assert Settled(s, loc);
  }

  /** The committed transactions, run alone in commit order, would have read what they did read. */
  lemma {:induction false} Serializable(s: State)
    requires Reachable(s)
    ensures Serial(map[], s.done)
  {
    ReachableOk(s);
  }

  /** Outside normal running no COMMIT record is on its way to the disk. */
  lemma {:induction false} NoCommitWaits(s: State)
    requires Reachable(s) && !s.mode.Running? && CanPersist(s)
    ensures !s.log[s.durable].Commit?
  {
    ReachableOk(s);
    hide Shape, FramesOk, Recoverable, OneOrigin, OnlyRecovery, ScanOk;
    assert ModeOk(s);
  }

  lemma {:induction false} PersistCommits(s: State)
    requires Reachable(s) && CanPersist(s)
    ensures var r := s.log[s.durable];
            if r.Commit? then r.t in s.txns && ApplyPersist(s).done == s.done + [s.txns[r.t].ops]
            else ApplyPersist(s).done == s.done
  {
    var r := s.log[s.durable];
    assert ApplyPersist(s).done == if r.Commit? && r.t in s.txns then s.done + [s.txns[r.t].ops] else s.done;
    hide ApplyPersist, Shape, FramesOk, NoCheckpoint, OwnersGuard, LogOk, TxnsOk, LocsOk, OnlyRecovery, ScanOk, OneOrigin,
         Recoverable;
    ReachableOk(s);
    if s.mode.Running? {
      PersistWho(s);
    } else {
      NoCommitWaits(s);
    }
  }

  /** No step takes back a commit, and only a COMMIT record that reaches the disk adds one. */
  lemma {:induction false} OthersCommitNothing(s: State, step: Step)
    requires Enabled(s, step) && step != Persist
    ensures Apply(s, step).done == s.done
  {
    hide LockState.Share, LockState.Upgrade, LockState.Unlock, State.NextLsn, State.Buffered, ApplyUndo, ApplyScan;
    match step {
      case UndoOne(t) => UndoCommitsNothing(s, t);
      case ScanOne => ScanCommitsNothing(s);
      case _ =>
    }
  }

  lemma UndoCommitsNothing(s: State, t: TxnId)
    requires CanUndo(s, t)
    ensures ApplyUndo(s, t).done == s.done
  {
  }

  lemma ScanCommitsNothing(s: State)
    requires CanScan(s)
    ensures ApplyScan(s).done == s.done
  {
  }

  /** What is on disk before its time can be taken back: the value to restore is in the durable log. */
  lemma {:induction false} WriteAhead(s: State, loc: Loc)
    requires Reachable(s) && DiskVal(s, loc) != CommittedValue(s, loc)
    ensures s.ckpt <= s.durable <= |s.log|
    ensures exists i :: s.ckpt <= i < s.durable && s.log[i].SetVal? && s.log[i].loc == loc &&
                        s.log[i].was == CommittedValue(s, loc)
  {
    ReachableOk(s);
    AlwaysRecoverable(s);
    assert Restores(s, s.durable, loc);
    OldestWitness(s.log, s.ckpt, s.durable, {}, loc);
  }

  lemma {:induction false} OldestWitness(log: seq<Record>, ckpt: nat, n: nat, finished: set<TxnId>, loc: Loc)
    requires ckpt <= n <= |log| && (ckpt == 0 || log[ckpt - 1].Checkpoint?)
    requires Oldest(log, n, finished, loc).Some?
    ensures exists i :: ckpt <= i < n && log[i].SetVal? && log[i].loc == loc &&
                        Some(log[i].was) == Oldest(log, n, finished, loc)
    decreases n
  {
    var r := log[n - 1];
    if Oldest(log, n - 1, Seen(r, finished), loc).Some? && n > ckpt {
      OldestWitness(log, ckpt, n - 1, Seen(r, finished), loc);
      var i :| ckpt <= i < n - 1 && log[i].SetVal? && log[i].loc == loc &&
               Some(log[i].was) == Oldest(log, n - 1, Seen(r, finished), loc);
      assert Some(log[i].was) == Oldest(log, n, finished, loc);
    } else {
      assert n > ckpt && r.SetVal? && r.loc == loc;
    }
  }

  /** A change whose transaction is running is not on disk before its first log record is. */
  lemma {:induction false} NoEarlyChange(s: State, t: TxnId, loc: Loc)
    requires Reachable(s) && s.mode.Running? && Guards(s, t, loc.block)
    requires loc !in s.txns[t].first || s.txns[t].first[loc] >= s.durable
    ensures DiskVal(s, loc) == CommittedValue(s, loc)
  {
    ReachableOk(s);
    assert LocOk(s, loc);
  }

  lemma {:induction false} ForcedPage(s: State, t: TxnId, loc: Loc)
    requires t in s.txns && TxnOk(s, t) && LocOk(s, loc) && Live(s, t)
    requires s.txns[t].phase.Ending? && s.txns[t].phase.commit && Writes(s.txns[t].ops, loc)
    ensures DiskVal(s, loc) == Look(ApplyOps(s.committed, s.txns[t].ops), loc)
  {
    assert FirstOk(s, t, loc);
    assert Guards(s, t, loc.block);
  }

  /** Force: a COMMIT record reaches the disk only after every change of its transaction. */
  lemma {:induction false} ForcedAtCommit(s: State, t: TxnId, loc: Loc)
    requires Reachable(s) && CanPersist(s) && s.log[s.durable] == Commit(t)
    ensures t in s.txns
    ensures Writes(s.txns[t].ops, loc) ==> DiskVal(s, loc) == CommittedValue(ApplyPersist(s), loc)
  {
    ReachableOk(s);
    UpIsInv(s);
    PersistWho(s);
    PersistCommits(s);
    ReplaySnoc(map[], s.done, s.txns[t].ops);
    assert LocOk(s, loc) && TxnOk(s, t);
    if Writes(s.txns[t].ops, loc) {
      ForcedPage(s, t, loc);
    }
  }

  /** No one's lock, no one's change: such a location is the committed one on disk and in memory. */
  lemma {:induction false} UnlockedIsCommitted(s: State, loc: Loc)
    requires Reachable(s) && s.mode.Running?
    requires forall t :: !s.locks.HoldsX(t, loc.block)
    ensures DiskVal(s, loc) == CommittedValue(s, loc) && MemVal(s, loc) == CommittedValue(s, loc)
  {
    ReachableOk(s);
    assert LocOk(s, loc);
  }

  /**
   * Rollback. When the ROLLBACK record may be written, every location that the transaction ever
   * logged has again the value it had at the transaction's first write, which is the committed one.
   */
  lemma {:induction false} RollbackRestores(s: State, t: TxnId, loc: Loc)
    requires Reachable(s) && Enabled(s, LogRollback(t)) && loc in s.txns[t].first
    ensures s.txns[t].first[loc] < |s.log| && s.log[s.txns[t].first[loc]].SetVal?
    ensures MemVal(s, loc) == s.log[s.txns[t].first[loc]].was && DiskVal(s, loc) == MemVal(s, loc)
    ensures MemVal(s, loc) == CommittedValue(s, loc)
  {
    ReachableOk(s);
    assert TxnOk(s, t) && FirstOk(s, t, loc) && LocOk(s, loc);
    assert Guards(s, t, loc.block);
    Forced(s, t, loc);
  }

  /** `first` is the first: it marks the earliest record of this transaction for the location. */
  lemma {:induction false} FirstIsEarliest(s: State, t: TxnId, i: nat)
    requires Reachable(s) && s.mode.Running? && t in s.txns && !s.txns[t].phase.Ending?
    requires s.txns[t].start <= i < |s.log| && Sets(s.log[i], t)
    ensures s.log[i].loc in s.txns[t].first && s.txns[t].first[s.log[i].loc] <= i
  {
    ReachableOk(s);
    assert TxnOk(s, t);
    if i >= s.ckpt {
      assert Accounted(s, i);
    }
    OwnRecord(s, t, i);
  }

  /** Rollback touches nothing but the blocks that its own transaction has locked. */
  lemma {:induction false} UndoTouchesOwn(s: State, t: TxnId, loc: Loc)
    requires Reachable(s) && CanUndo(s, t) && !s.locks.HoldsX(t, loc.block)
    ensures MemVal(ApplyUndo(s, t), loc) == MemVal(s, loc)
    ensures DiskVal(ApplyUndo(s, t), loc) == DiskVal(s, loc)
  {
    ReachableOk(s);
    assert TxnOk(s, t);
    UndoReady(s, t);
    UndoShape(s, ApplyUndo(s, t), t);
  }

  /** The lock that an undo asks for is always there already. */
  lemma {:induction false} UndoNeverWaits(s: State, t: TxnId)
    requires Reachable(s) && s.mode.Running? && t in s.txns && s.txns[t].phase.Undoing?
    ensures 0 < s.txns[t].phase.pos <= |s.log|
    ensures var r := s.log[s.txns[t].phase.pos - 1]; Sets(r, t) ==> s.locks.HoldsX(t, r.loc.block)
  {
    ReachableOk(s);
    assert TxnOk(s, t);
    UndoReady(s, t);
    if Sets(s.log[s.txns[t].phase.pos - 1], t) {
      assert PhaseOk(s, t);
      OwnRecord(s, t, s.txns[t].phase.pos - 1);
    }
  }

  /**
   * Transaction ids restart at 1 in every process, and still no record is taken for another
   * transaction's: since the last durable checkpoint all records but STARTs are of one process.
   */
  lemma {:induction false} OneProcessSinceCheckpoint(s: State, i: nat, j: nat)
    requires Reachable(s) && s.ckpt <= i < |s.log| && s.ckpt <= j < |s.log|
    requires !s.log[i].Start? && !s.log[i].Checkpoint? && !s.log[j].Start? && !s.log[j].Checkpoint?
    ensures |s.origin| == |s.log| && s.origin[i] == s.origin[j]
  {
    ReachableOk(s);
    AlwaysOneOrigin(s);
  }

  /** In one process, an id that is given to a new transaction is on no earlier record since the checkpoint. */
  lemma {:induction false} FreshId(s: State, i: nat)
    requires Reachable(s) && Enabled(s, Begin) && s.ckpt <= i < |s.log|
    ensures Id(s.log[i]) < Apply(s, Begin).lastId
  {
    ReachableOk(s);
  }

  /** In every process the first transaction has the id 1; after a crash it is the one that recovers. */
  lemma {:induction false} FirstId(s: State)
    requires Reachable(s) && Enabled(s, Restart)
    ensures Apply(s, Restart).txns.Keys == {1} && Apply(s, Restart).lastId == 1
    ensures Apply(NewDatabase, Begin).txns.Keys == {1} && Apply(NewDatabase, Begin).lastId == 1
  {
    assert Apply(s, Restart).txns.Keys == {RecoveryTxn};
  }

  /** An exclusive lock excludes all other locks, in every reachable state. */
  lemma {:induction false} LocksExclude(s: State, t: TxnId, u: TxnId, b: BlockId)
    requires Reachable(s) && s.locks.HoldsX(t, b) && s.locks.Holds(u, b)
    ensures t == u && s.locks.Count(b) == -1
  {
    ReachableOk(s);
    ExclusiveAlone(s.locks, t, u, b);
    assert s.locks.BlockMeaning(b);
    assert t in s.locks.Holders(b);
  }

  /** Every value that an active transaction reads is its own last write or the committed value. */
  lemma {:induction false} ReadsAreClean(s: State, t: TxnId, loc: Loc)
    requires Reachable(s) && Enabled(s, ReadValue(t, loc))
    ensures s.Buffered(loc) == Look(ApplyOps(ReplayAll(map[], s.done), s.txns[t].ops), loc)
  {
    ReachableOk(s);
    ReadsCommitted(s, t, loc);
  }

  // ---- Runs that end in one more step ----

  lemma {:induction false} RunSnoc(s: State, steps: seq<Step>, step: Step)
    requires ValidRun(s, steps) && Enabled(RunFrom(s, steps), step)
    ensures ValidRun(s, steps + [step])
    ensures RunFrom(s, steps + [step]) == Apply(RunFrom(s, steps), step)
    decreases |steps|
  {
    if steps == [] {
      assert [step][1..] == [];
      assert steps + [step] == [step];
    } else {
      RunSnoc(Apply(s, steps[0]), steps[1..], step);
      assert (steps + [step])[1..] == steps[1..] + [step];
    }
  }

  lemma {:induction false} ReachStep(s: State, step: Step)
    requires Reachable(s) && Enabled(s, step)
    ensures Reachable(Apply(s, step))
  {
    var steps :| ValidRun(NewDatabase, steps) && RunFrom(NewDatabase, steps) == s;
    RunSnoc(NewDatabase, steps, step);
  }

  // ---- Recovery again and again ----

  /** Until the database opens, steps of the system commit nothing, however often it crashes. */
  lemma {:induction false} RecoveryCommitsNothing(s: State, step: Step)
    requires Reachable(s) && !s.mode.Running? && Enabled(s, step) && step != Open
    ensures Apply(s, step).done == s.done && !Apply(s, step).mode.Running?
  {
    if step == Persist {
      NoCommitWaits(s);
    } else {
      OthersCommitNothing(s, step);
      StaysClosed(s, step);
    }
  }

  lemma {:induction false} StaysClosed(s: State, step: Step)
    requires !s.mode.Running? && Enabled(s, step) && step != Open
    ensures !Apply(s, step).mode.Running?
  {
    hide LockState.Share, LockState.Upgrade, LockState.Unlock, State.NextLsn, State.Buffered;
    match step {
      case ScanOne => assert !ApplyScan(s).mode.Running?;
      case Persist => assert ApplyPersist(s).mode == s.mode;
      case _ =>
    }
  }

  ghost predicate NeverOpens(steps: seq<Step>) {
    forall i :: 0 <= i < |steps| ==> steps[i] != Open
  }

  /** Undoing is idempotent: after any number of recoveries that were cut short, wherever they were cut, a recovery
      gives every location the value that the first one would have given. */
  lemma {:induction false} InterruptedRecoveries(s: State, steps: seq<Step>, loc: Loc)
    requires Reachable(s) && !s.mode.Running? && ValidRun(s, steps) && NeverOpens(steps)
    ensures s.durable <= |s.log| && RunFrom(s, steps).durable <= |RunFrom(s, steps).log|
    ensures var s' := RunFrom(s, steps);
            Recovered(s'.disk, s'.log[..s'.durable], loc) == Recovered(s.disk, s.log[..s.durable], loc)
    decreases |steps|
  {
    CrashAnywhere(s, loc);
    if steps != [] {
      RecoveryCommitsNothing(s, steps[0]);
      ReachStep(s, steps[0]);
      CrashAnywhere(Apply(s, steps[0]), loc);
      InterruptedRecoveries(Apply(s, steps[0]), steps[1..], loc);
    }
  }
}
