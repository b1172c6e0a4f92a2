/** Crashes, restarts and recovery keep the invariant. */
module EngineRecovery {
  import opened Storage
  import opened Locks
  import opened History
  import opened Engine
  import opened EngineInvariant
  import opened EngineSteps

  // ---- What the backward scan finds ----

  lemma {:induction false} OldestPrefix(log: seq<Record>, more: seq<Record>, n: nat, finished: set<TxnId>, loc: Loc)
    requires n <= |log| <= |more| && log == more[..|log|]
    ensures Oldest(log, n, finished, loc) == Oldest(more, n, finished, loc)
    decreases n
  {
    if n > 0 {
      assert log[n - 1] == more[n - 1];
      match log[n - 1] {
        case Commit(t) => OldestPrefix(log, more, n - 1, finished + {t}, loc);
        case Rollback(t) => OldestPrefix(log, more, n - 1, finished + {t}, loc);
        case Start(_) => OldestPrefix(log, more, n - 1, finished, loc);
        case SetVal(_, _, _) => OldestPrefix(log, more, n - 1, finished, loc);
        case Checkpoint =>
      }
    }
  }

  /** The record at `i` is of a transaction that the scan of the first `n` records knows to be over. */
  ghost predicate Over(log: seq<Record>, i: int, n: nat, finished: set<TxnId>, t: TxnId)
    requires n <= |log|
  {
    t in finished || exists k :: 0 <= k < n && i < k && Ends(log[k], t)
  }

  /** No checkpoint between `ckpt` and `n`, and one just before `ckpt` unless the log starts there. */
  ghost predicate Since(log: seq<Record>, ckpt: nat, n: nat) {
    ckpt <= n <= |log| && (ckpt == 0 || log[ckpt - 1].Checkpoint?) &&
    forall i :: ckpt <= i < n ==> !log[i].Checkpoint?
  }

  function Seen(r: Record, finished: set<TxnId>): set<TxnId> {
    if r.Commit? || r.Rollback? then finished + {r.t} else finished
  }

  lemma {:induction false} OverShift(log: seq<Record>, i: int, n: nat, finished: set<TxnId>, t: TxnId)
    requires 0 < n <= |log| && i < n - 1
    ensures Over(log, i, n, finished, t) == Over(log, i, n - 1, Seen(log[n - 1], finished), t)
  {
    var r := log[n - 1];
    assert Ends(r, t) ==> t in Seen(r, finished);
    if exists k :: 0 <= k < n && i < k && Ends(log[k], t) {
      var k :| 0 <= k < n && i < k && Ends(log[k], t);
      assert k == n - 1 || (0 <= k < n - 1 && Ends(log[k], t));
    }
  }

  /** Nothing found: every change of the location is of a transaction that is over. */
  lemma {:induction false} OldestNone(log: seq<Record>, ckpt: nat, n: nat, finished: set<TxnId>, loc: Loc)
    requires Since(log, ckpt, n)
    requires forall i :: ckpt <= i < n && log[i].SetVal? && log[i].loc == loc ==> Over(log, i, n, finished, log[i].t)
    ensures Oldest(log, n, finished, loc) == None
    decreases n
  {
    if n > ckpt {
      var r := log[n - 1];
      forall i | ckpt <= i < n - 1 && log[i].SetVal? && log[i].loc == loc
        ensures Over(log, i, n - 1, Seen(r, finished), log[i].t)
      {
        OverShift(log, i, n, finished, log[i].t);
      }
      OldestNone(log, ckpt, n - 1, Seen(r, finished), loc);
      if r.SetVal? && r.loc == loc {
        assert Over(log, n - 1, n, finished, r.t);
      }
    }
  }

  /** The record at `first` is found: its transaction is not over and every earlier change is of one that is. */
  lemma {:induction false} OldestSome(log: seq<Record>, ckpt: nat, n: nat, finished: set<TxnId>, loc: Loc, first: nat)
    requires Since(log, ckpt, n) && ckpt <= first < n
    requires log[first].SetVal? && log[first].loc == loc && !Over(log, first, n, finished, log[first].t)
    requires forall i :: ckpt <= i < first && log[i].SetVal? && log[i].loc == loc ==> Over(log, i, n, finished, log[i].t)
    ensures Oldest(log, n, finished, loc) == Some(log[first].was)
    decreases n
  {
    var r := log[n - 1];
    forall i | ckpt <= i < n - 1 && i <= first && log[i].SetVal?
      ensures Over(log, i, n, finished, log[i].t) == Over(log, i, n - 1, Seen(r, finished), log[i].t)
    {
      OverShift(log, i, n, finished, log[i].t);
    }
    if first == n - 1 {
      OldestNone(log, ckpt, n - 1, finished, loc);
    } else {
      OldestSome(log, ckpt, n - 1, Seen(r, finished), loc, first);
    }
  }

  // ---- In normal running, a crash could be recovered from at any moment ----

  lemma {:induction false} OverOnDisk(s: State, i: nat)
    requires Up(s) && s.ckpt <= i < s.durable && s.log[i].SetVal?
    requires s.log[i].t in s.txns ==> !Live(s, s.log[i].t)
    ensures Over(s.log, i, s.durable, {}, s.log[i].t)
  {
    var t := s.log[i].t;
    assert Accounted(s, i);
    if EndedBy(s, t, i) {
      var k :| 0 <= k < |s.log| && i < k < s.durable && Ends(s.log[k], t);
    } else {
      assert TxnOk(s, t) && PhaseOk(s, t);
      assert Sets(s.log[i], t) && Ends(s.log[s.txns[t].phase.at], t);
    }
  }

  /** The transaction of a change that is not over guards the block. */
  lemma {:induction false} NotOver(s: State, i: nat)
    requires Up(s) && s.ckpt <= i < s.durable && s.log[i].SetVal?
    requires !Over(s.log, i, s.durable, {}, s.log[i].t)
    ensures Guards(s, s.log[i].t, s.log[i].loc.block)
    ensures s.log[i].loc in s.txns[s.log[i].t].first && s.txns[s.log[i].t].first[s.log[i].loc] <= i
  {
    var t := s.log[i].t;
    var loc := s.log[i].loc;
    assert Accounted(s, i);
    assert !EndedBy(s, t, i);
    assert TxnOk(s, t) && FirstOk(s, t, loc);
    if !Live(s, t) {
      OverOnDisk(s, i);
    }
  }

  /** The guard's first durable change is the one that recovery undoes last. */
  lemma {:induction false} GuardRestores(s: State, t: TxnId, loc: Loc)
    requires Up(s) && t in s.txns && Guards(s, t, loc.block)
    requires loc in s.txns[t].first && s.txns[t].first[loc] < s.durable
    ensures Oldest(s.log, s.durable, {}, loc) == Some(Com(s, loc))
  {
    var first := s.txns[t].first[loc];
    assert TxnOk(s, t) && FirstOk(s, t, loc);
    assert forall k :: s.ckpt <= k < s.durable ==> !Ends(s.log[k], t);
    forall i | s.ckpt <= i < first && s.log[i].SetVal? && s.log[i].loc == loc
      ensures Over(s.log, i, s.durable, {}, s.log[i].t)
    {
      if !Over(s.log, i, s.durable, {}, s.log[i].t) {
        NotOver(s, i);
        OneGuard(s, t, s.log[i].t, loc.block);
      }
    }
    OldestSome(s.log, s.ckpt, s.durable, {}, loc, first);
  }

  lemma {:induction false} RunningRestores(s: State, loc: Loc)
    requires Up(s)
    ensures Restores(s, s.durable, loc)
  {
    if t :| t in s.txns && Guards(s, t, loc.block) && loc in s.txns[t].first && s.txns[t].first[loc] < s.durable {
      GuardRestores(s, t, loc);
    } else {
      forall i | s.ckpt <= i < s.durable && s.log[i].SetVal? && s.log[i].loc == loc
        ensures Over(s.log, i, s.durable, {}, s.log[i].t)
      {
        if !Over(s.log, i, s.durable, {}, s.log[i].t) {
          NotOver(s, i);
        }
      }
      OldestNone(s.log, s.ckpt, s.durable, {}, loc);
      assert LocOk(s, loc);
      NoDurableChange(s, loc);
    }
  }

  lemma {:induction false} NoDurableChange(s: State, loc: Loc)
    requires LocOk(s, loc)
    requires forall t :: t in s.txns && Guards(s, t, loc.block) && loc in s.txns[t].first ==>
               s.txns[t].first[loc] >= s.durable
    ensures DiskVal(s, loc) == Com(s, loc)
  {
    if t :| t in s.txns && Guards(s, t, loc.block) {
    } else {
      assert Settled(s, loc);
    }
  }

  // ---- Crash ----

  lemma {:induction false} AlwaysRecoverable(s: State)
    requires Inv(s)
    ensures Recoverable(s)
  {
    if s.mode.Running? {
      forall loc ensures Restores(s, s.durable, loc) {
        RunningRestores(s, loc);
      }
    }
  }

  lemma {:induction false} AlwaysOneOrigin(s: State)
    requires Inv(s)
    ensures OneOrigin(s)
  {
  }

  lemma {:induction false} StepCrash(s: State)
    requires Inv(s) && Enabled(s, Crash)
    ensures Inv(Apply(s, Crash))
  {
    var s' := Apply(s, Crash);
    AlwaysRecoverable(s);
    AlwaysOneOrigin(s);
    forall loc ensures Restores(s', s'.durable, loc) {
      assert Restores(s, s.durable, loc);
      OldestPrefix(s'.log, s.log, s.durable, {}, loc);
    }
    assert NoLocks.Meaning() by {
      forall b ensures NoLocks.BlockMeaning(b) {
        assert NoLocks.Holders(b) == {};
      }
    }
    assert NoCheckpoint(s');
    assert OneOrigin(s');
  }

  // ---- Restart and the steps of recovery ----

  lemma {:induction false} StepRestart(s: State)
    requires Inv(s) && Enabled(s, Restart)
    ensures Inv(Apply(s, Restart))
  {
    hide LockState.Meaning, Serial, ReplayAll;
    var s' := Apply(s, Restart);
    forall loc ensures Restores(s', s'.durable, loc) && ScanLocOk(s', s'.mode.pos, {}, loc) {
      assert Restores(s, s.durable, loc);
      OldestPrefix(s.log, s'.log, s.durable, {}, loc);
      assert Oldest(s'.log, |s'.log|, {}, loc) == Oldest(s'.log, s.durable, {}, loc);
    }
    assert forall t, b :: !s'.locks.Holds(t, b);
    assert OneOrigin(s');
  }

  lemma {:induction false} RecoveryLocks(ls: LockState, b: BlockId)
    requires ls.Meaning() && forall t, c :: ls.Holds(t, c) ==> t == RecoveryTxn
    ensures ls.Share(RecoveryTxn, b).Upgrade(RecoveryTxn, b).Meaning()
    ensures forall t, c :: ls.Share(RecoveryTxn, b).Upgrade(RecoveryTxn, b).Holds(t, c) ==> t == RecoveryTxn
  {
    assert ls.BlockMeaning(b);
    var shared := ls.Share(RecoveryTxn, b);
    ShareKeepsMeaning(ls, RecoveryTxn, b);
    assert shared.BlockMeaning(b);
    OtherHolders(ls, shared, RecoveryTxn, b);
    assert RecoveryTxn in shared.Holders(b);
    forall t | t in shared.Holders(b) ensures t == RecoveryTxn {
      assert t != RecoveryTxn ==> t in ls.Holders(b);
    }
    assert shared.Holders(b) == {RecoveryTxn};
    UpgradeKeepsMeaning(shared, RecoveryTxn, b);
    var after := shared.Upgrade(RecoveryTxn, b);
    forall t, c | after.Holds(t, c) ensures t == RecoveryTxn {
      assert t != RecoveryTxn ==> after.Held(t) == ls.Held(t);
      assert t != RecoveryTxn ==> ls.Holds(t, c);
    }
  }

  predicate ScanUndoes(s: State)
    requires CanScan(s)
  {
    s.mode.pos > 0 && s.log[s.mode.pos - 1].SetVal? && s.log[s.mode.pos - 1].t !in s.mode.finished
  }

  lemma {:induction false} ScanForm(s: State)
    requires CanScan(s) && s.mode.pos > 0 && !s.log[s.mode.pos - 1].Checkpoint?
    ensures var r := s.log[s.mode.pos - 1];
            var next := s.(mode := Scanning(s.mode.pos - 1, Seen(r, s.mode.finished)));
            ApplyScan(s) ==
              if ScanUndoes(s)
              then next.(locks := s.locks.Share(RecoveryTxn, r.loc.block).Upgrade(RecoveryTxn, r.loc.block))
                   .Modify(RecoveryTxn, r.loc, r.was, -1)
              else next
  {
  }

  /** One turn of the backward scan brings every location closer to its committed value. */
  lemma {:induction false} ScanLoc(s: State, s': State, loc: Loc)
    requires CanScan(s) && s.mode.pos > 0 && !s.log[s.mode.pos - 1].Checkpoint?
    requires s.durable <= |s.log| && ScanLocOk(s, s.mode.pos, s.mode.finished, loc)
    requires s'.log == s.log && s'.durable == s.durable && s'.committed == s.committed
    requires var r := s.log[s.mode.pos - 1];
             MemVal(s', loc) == if ScanUndoes(s) && loc == r.loc then r.was else MemVal(s, loc)
    ensures ScanLocOk(s', s.mode.pos - 1, Seen(s.log[s.mode.pos - 1], s.mode.finished), loc)
  {
  }

  lemma {:induction false} ScanEnd(s: State, loc: Loc)
    requires CanScan(s) && (s.mode.pos == 0 || s.log[s.mode.pos - 1].Checkpoint?)
    requires s.durable <= |s.log| && ScanLocOk(s, s.mode.pos, s.mode.finished, loc)
    ensures MemVal(s, loc) == Com(s, loc)
  {
  }

  ghost predicate ScanStep(s: State, s': State) {
    && s' == s.(mode := s'.mode, locks := s'.locks, cache := s'.cache)
    && (s'.locks == s.locks || exists b :: s'.locks == s.locks.Share(RecoveryTxn, b).Upgrade(RecoveryTxn, b))
    && s'.cache.Keys == s.cache.Keys
    && (forall b :: b in s.cache ==> s'.cache[b].lsn == s.cache[b].lsn)
    && (forall b :: b in s.cache ==> s'.cache[b].owner == RecoveryTxn || s'.cache[b] == s.cache[b])
  }

  lemma {:induction false} ScanIsStep(s: State)
    requires CanScan(s)
    ensures ScanStep(s, ApplyScan(s))
  {
    if s.mode.pos > 0 && !s.log[s.mode.pos - 1].Checkpoint? {
      ScanForm(s);
    }
  }

  lemma {:induction false} ScanFrames(s: State, s': State)
    requires FramesOk(s) && ScanStep(s, s')
    ensures FramesOk(s')
  {
    forall b | b in s'.cache ensures FrameOk(s', b) {
      assert FrameOk(s, b);
    }
  }

  lemma {:induction false} ScanShape(s: State, s': State)
    requires Shape(s) && OnlyRecovery(s) && ScanStep(s, s')
    ensures Shape(s') && OnlyRecovery(s')
  {
    if s'.locks != s.locks {
      var b :| s'.locks == s.locks.Share(RecoveryTxn, b).Upgrade(RecoveryTxn, b);
      RecoveryLocks(s.locks, b);
    }
  }

  lemma {:induction false} ScanTurns(s: State, s': State)
    requires CanScan(s) && s' == ApplyScan(s) && ScanStep(s, s')
    requires s.durable <= |s.log| && ScanOk(s, s.mode.pos, s.mode.finished)
    ensures if s.mode.pos == 0 || s.log[s.mode.pos - 1].Checkpoint?
            then s'.mode.Scanned? && forall loc :: MemVal(s', loc) == Com(s', loc)
            else s'.mode.Scanning? && s'.mode.pos <= |s'.log| && ScanOk(s', s'.mode.pos, s'.mode.finished)
  {
    if s.mode.pos == 0 || s.log[s.mode.pos - 1].Checkpoint? {
      forall loc ensures MemVal(s', loc) == Com(s', loc) {
        assert ScanLocOk(s, s.mode.pos, s.mode.finished, loc);
        ScanEnd(s, loc);
      }
    } else {
      ScanForm(s);
      forall loc ensures ScanLocOk(s', s'.mode.pos, s'.mode.finished, loc) {
        assert ScanLocOk(s, s.mode.pos, s.mode.finished, loc);
        ScanLoc(s, s', loc);
      }
    }
  }

  lemma {:induction false} StepScanOne(s: State)
    requires Inv(s) && CanScan(s)
    ensures Inv(ApplyScan(s))
  {
    var s' := ApplyScan(s);
    ScanIsStep(s);
    ScanFrames(s, s');
    ScanShape(s, s');
    ScanTurns(s, s');
    forall loc ensures Restores(s', s'.durable, loc) {
      assert Restores(s, s.durable, loc);
    }
  }

  lemma {:induction false} StepLogCheckpoint(s: State)
    requires Inv(s) && Enabled(s, LogCheckpoint)
    ensures Inv(Apply(s, LogCheckpoint))
  {
    var s' := Apply(s, LogCheckpoint);
    forall b | b in s'.cache ensures FrameOk(s', b) && s'.cache[b].owner == -1 {
      assert FrameOk(s, b);
    }
    forall loc ensures Restores(s', s'.durable, loc) && Settled(s', loc) {
      assert Restores(s, s.durable, loc);
      OldestPrefix(s.log, s'.log, s.durable, {}, loc);
      assert loc.block in s.cache ==> FrameOk(s, loc.block);
    }
    assert OneOrigin(s');
  }

  lemma {:induction false} StepOpen(s: State)
    requires Inv(s) && Enabled(s, Open)
    ensures Inv(Apply(s, Open))
  {
    var s' := Apply(s, Open);
    forall b | b in s'.cache ensures FrameOk(s', b) {
      assert FrameOk(s, b);
    }
    assert forall loc :: !Touches([], loc) && !Writes([], loc);
    forall t | t in s'.txns ensures TxnOk(s', t) {
    }
    forall loc ensures LocOk(s', loc) {
      assert Settled(s, loc);
    }
    assert LogOk(s');
  }

  lemma {:induction false} StepPersistRecovering(s: State)
    requires Inv(s) && CanPersist(s) && !s.mode.Running?
    ensures Inv(ApplyPersist(s))
  {
    hide LockState.Meaning, Serial, ReplayAll;
    var s' := ApplyPersist(s);
    forall b | b in s'.cache ensures FrameOk(s', b) {
      assert FrameOk(s, b);
    }
    if s.mode.Scanning? {
      forall loc ensures Restores(s', s'.durable, loc) && ScanLocOk(s', s'.mode.pos, s'.mode.finished, loc) {
        assert Restores(s, s.durable, loc);
        assert ScanLocOk(s, s.mode.pos, s.mode.finished, loc);
      }
    } else {
      forall loc ensures Restores(s', s'.durable, loc) && Settled(s', loc) {
        assert Settled(s, loc);
      }
    }
  }
}
