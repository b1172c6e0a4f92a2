/** Every step keeps the invariant. */
module EngineSteps {
  import opened Storage
  import opened Locks
  import opened History
  import opened Engine
  import opened EngineInvariant

  // ---- Steps that only change locks ----

  /** The locks of one active transaction grow, and only where nobody else has an exclusive lock. */
  ghost predicate LocksGrow(s: State, s': State, t: TxnId) {
    && s' == s.(locks := s'.locks)
    && t in s.txns && s.txns[t].phase == Active
    && (forall u, b :: u != t ==> s'.locks.Holds(u, b) == s.locks.Holds(u, b))
    && (forall u, b :: u != t ==> s'.locks.HoldsX(u, b) == s.locks.HoldsX(u, b))
    && (forall b :: s.locks.Holds(t, b) ==> s'.locks.Holds(t, b))
    && (forall b :: s.locks.HoldsX(t, b) ==> s'.locks.HoldsX(t, b))
    && (forall b, u :: s'.locks.HoldsX(t, b) && !s.locks.HoldsX(t, b) ==> !s.locks.HoldsX(u, b))
  }

  lemma {:induction false} GrowTxn(s: State, s': State, t: TxnId, u: TxnId)
    requires LocksGrow(s, s', t) && u in s.txns && TxnOk(s, u) && Shape(s)
    ensures TxnOk(s', u)
  {
    forall loc | loc in s'.txns[u].first ensures FirstOk(s', u, loc) {
      assert FirstOk(s, u, loc);
    }
  }

  lemma {:induction false} SameLog(s: State, s': State)
    requires s'.log == s.log && s'.origin == s.origin && s'.durable == s.durable && s'.ckpt == s.ckpt
    requires s'.lastId == s.lastId && s'.epoch == s.epoch && LogOk(s) && s.ckpt <= s.durable <= |s.log|
    requires forall t :: t in s.txns ==> t in s'.txns && s'.txns[t].first == s.txns[t].first
    ensures LogOk(s')
  {
    forall i | s'.ckpt <= i < |s'.log| ensures Accounted(s', i) {
      assert Accounted(s, i);
      if s.log[i].SetVal? && EndedBy(s, s.log[i].t, i) {
        assert EndedBy(s', s.log[i].t, i);
      }
    }
  }

  lemma {:induction false} GrowLoc(s: State, s': State, t: TxnId, loc: Loc)
    requires LocksGrow(s, s', t) && LocOk(s, loc) && Shape(s)
    requires forall l :: l in s.txns[t].first ==> FirstOk(s, t, l)
    ensures LocOk(s', loc)
  {
    forall u | u in s'.txns && Guards(s', u, loc.block)
      ensures if loc in s'.txns[u].first then OwnVal(s', u, loc) else Settled(s', loc)
    {
      if !Guards(s, u, loc.block) {
        assert u == t;
        assert forall w :: w in s.txns ==> !Guards(s, w, loc.block);
        assert loc in s.txns[t].first ==> FirstOk(s, t, loc);
      }
    }
    if forall u :: u in s'.txns ==> !Guards(s', u, loc.block) {
      forall u | u in s.txns ensures !Guards(s, u, loc.block) {
        assert !Guards(s', u, loc.block);
      }
    }
  }

  lemma {:induction false} GrowKeeps(s: State, s': State, t: TxnId)
    requires Up(s) && LocksGrow(s, s', t) && s'.locks.Meaning()
    ensures Up(s')
  {
    forall u | u in s'.txns ensures TxnOk(s', u) {
      GrowTxn(s, s', t, u);
    }
    SameLog(s, s');
    assert TxnOk(s, t);
    forall loc ensures LocOk(s', loc) {
      assert LocOk(s, loc);
      GrowLoc(s, s', t, loc);
    }
    forall b | b in s'.cache ensures FrameOk(s', b) {
      assert FrameOk(s, b);
    }
    assert OwnersGuard(s');
    assert NoCheckpoint(s');
    assert TxnsOk(s');
  }

  lemma {:induction false} StepShare(s: State, t: TxnId, b: BlockId)
    requires Up(s) && Enabled(s, ShareLock(t, b))
    ensures Up(Apply(s, ShareLock(t, b)))
  {
    ShareKeepsMeaning(s.locks, t, b);
    GrowKeeps(s, Apply(s, ShareLock(t, b)), t);
  }

  lemma {:induction false} StepUpgrade(s: State, t: TxnId, b: BlockId)
    requires Up(s) && Enabled(s, UpgradeLock(t, b))
    ensures Up(Apply(s, UpgradeLock(t, b)))
  {
    var s' := Apply(s, UpgradeLock(t, b));
    if s.locks.HoldsX(t, b) {
      assert s' == s;
    } else {
      UpgradeKeepsMeaning(s.locks, t, b);
      forall u ensures !s.locks.HoldsX(u, b) {
        assert u != t ==> u !in s.locks.Holders(b);
      }
      GrowKeeps(s, s', t);
    }
  }

  // ---- Steps of the buffer pool: memory keeps its value, the disk moves towards it ----

  ghost predicate PoolStep(s: State, s': State) {
    && s' == s.(cache := s'.cache, disk := s'.disk)
    && (forall loc :: MemVal(s', loc) == MemVal(s, loc))
    && (forall loc :: DiskVal(s', loc) == DiskVal(s, loc) ||
                      (DiskVal(s', loc) == MemVal(s, loc) && loc.block in s.cache &&
                       s.base + s.cache[loc.block].lsn <= s.durable))
    && (forall b :: b in s'.cache && b in s.cache ==> s'.cache[b].lsn == s.cache[b].lsn)
    && (forall b :: b in s'.cache && s'.cache[b].owner != -1 ==> b in s.cache && s'.cache[b].owner == s.cache[b].owner)
  }

  lemma {:induction false} PoolTxn(s: State, s': State, t: TxnId)
    requires PoolStep(s, s') && t in s.txns && TxnOk(s, t) && Shape(s)
    ensures TxnOk(s', t)
  {
    forall loc | loc in s'.txns[t].first ensures FirstOk(s', t, loc) {
      assert FirstOk(s, t, loc);
    }
  }

  lemma {:induction false} PoolLoc(s: State, s': State, loc: Loc)
    requires PoolStep(s, s') && LocOk(s, loc)
    ensures LocOk(s', loc)
  {
    assert forall t :: Guards(s', t, loc.block) == Guards(s, t, loc.block);
    forall t | t in s'.txns && Guards(s', t, loc.block)
      ensures if loc in s'.txns[t].first then OwnVal(s', t, loc) else Settled(s', loc)
    {
      assert Guards(s, t, loc.block);
    }
  }

  lemma {:induction false} PoolScan(s: State, s': State)
    requires PoolStep(s, s') && Shape(s) && Recoverable(s)
    requires forall loc :: Oldest(s.log, s.durable, {}, loc).None? ==> MemVal(s, loc) == Com(s, loc)
    ensures Recoverable(s')
  {
    forall loc ensures Restores(s', s'.durable, loc) {
      assert Restores(s, s.durable, loc);
    }
  }

  lemma {:induction false} PoolKeepsRunning(s: State, s': State)
    requires Up(s) && PoolStep(s, s')
    ensures RunningOk(s')
  {
    forall t | t in s'.txns ensures TxnOk(s', t) {
      PoolTxn(s, s', t);
    }
    SameLog(s, s');
    forall loc ensures LocOk(s', loc) {
      assert LocOk(s, loc);
      PoolLoc(s, s', loc);
    }
    assert OwnersGuard(s');
    assert NoCheckpoint(s');
    assert TxnsOk(s');
  }

  lemma {:induction false} PoolKeepsScan(s: State, s': State)
    requires Inv(s) && PoolStep(s, s') && s.mode.Scanning?
    ensures ModeOk(s')
  {
    forall loc | Oldest(s.log, s.durable, {}, loc).None? ensures MemVal(s, loc) == Com(s, loc) {
      assert ScanLocOk(s, s.mode.pos, s.mode.finished, loc);
    }
    PoolScan(s, s');
    forall loc ensures ScanLocOk(s', s.mode.pos, s.mode.finished, loc) {
      assert ScanLocOk(s, s.mode.pos, s.mode.finished, loc);
    }
  }

  lemma {:induction false} PoolKeeps(s: State, s': State)
    requires Inv(s) && PoolStep(s, s') && FramesOk(s') && !s.mode.Down?
    requires forall b :: b in s'.cache && s'.cache[b].owner != -1 ==> s.cache[b].owner != -1
    ensures Inv(s')
  {
    hide LockState.Meaning, Serial, ReplayAll;
    match s.mode {
      case Running => PoolKeepsRunning(s, s');
      case Scanning(_, _) => PoolKeepsScan(s, s');
      case Scanned =>
        PoolScan(s, s');
      case Checkpointing(_) =>
        forall loc ensures Settled(s', loc) && MemVal(s, loc) == Com(s, loc) {
          assert Settled(s, loc);
        }
        PoolScan(s, s');
    }
  }

  lemma {:induction false} StepFetch(s: State, b: BlockId, lsn: int)
    requires Inv(s) && Enabled(s, Fetch(b, lsn))
    ensures Inv(Apply(s, Fetch(b, lsn)))
  {
    var s' := Apply(s, Fetch(b, lsn));
    forall c | c in s'.cache ensures FrameOk(s', c) {
      if c != b {
        assert FrameOk(s, c);
      }
    }
    PoolKeeps(s, s');
  }

  lemma {:induction false} WritePageIsPool(s: State, s': State, b: BlockId)
    requires FramesOk(s) && Enabled(s, WritePage(b)) && s' == Apply(s, WritePage(b))
    ensures PoolStep(s, s') && FramesOk(s')
  {
    forall c | c in s'.cache ensures FrameOk(s', c) {
      assert FrameOk(s, c);
    }
  }

  lemma {:induction false} StepWritePage(s: State, b: BlockId)
    requires Inv(s) && Enabled(s, WritePage(b))
    ensures Inv(Apply(s, WritePage(b)))
  {
    assert FramesOk(s) && !s.mode.Down?;
    hide Inv, ModeOk, Shape;
    WritePageIsPool(s, Apply(s, WritePage(b)), b);
    PoolKeeps(s, Apply(s, WritePage(b)));
  }

  lemma {:induction false} EvictIsPool(s: State, s': State, b: BlockId)
    requires FramesOk(s) && Enabled(s, Evict(b)) && s' == Apply(s, Evict(b))
    ensures PoolStep(s, s') && FramesOk(s')
  {
    assert FrameOk(s, b);
    forall loc ensures MemVal(s', loc) == MemVal(s, loc) {
      if loc.block == b {
        assert Get(s.cache[b].page, loc.field) == Get(ReadBlock(s.disk, b), loc.field);
      }
    }
    forall c | c in s'.cache ensures FrameOk(s', c) {
      assert FrameOk(s, c);
    }
  }

  lemma {:induction false} StepEvict(s: State, b: BlockId)
    requires Inv(s) && Enabled(s, Evict(b))
    ensures Inv(Apply(s, Evict(b)))
  {
    assert FramesOk(s) && !s.mode.Down?;
    hide Inv, ModeOk, Shape;
    EvictIsPool(s, Apply(s, Evict(b)), b);
    PoolKeeps(s, Apply(s, Evict(b)));
  }

  lemma {:induction false} OneGuard(s: State, t: TxnId, u: TxnId, b: BlockId)
    requires Shape(s) && Guards(s, t, b) && s.locks.Holds(u, b)
    ensures u == t
  {
    ExclusiveAlone(s.locks, t, u, b);
  }

  // ---- Steps that append the record `r` of transaction `t` ----

  ghost predicate LogGrows(s: State, s': State, r: Record, t: TxnId) {
    && s' == s.(log := s.log + [r], origin := s.origin + [s.epoch], txns := s'.txns, lastId := s'.lastId)
    && !r.Checkpoint? && r.t == t <= s'.lastId && s.lastId <= s'.lastId
    && s'.txns.Keys == s.txns.Keys + {t}
    && (forall u :: u in s.txns && u != t ==> s'.txns[u] == s.txns[u])
    && (t in s.txns ==> forall l :: l in s.txns[t].first ==>
          l in s'.txns[t].first && s'.txns[t].first[l] == s.txns[t].first[l])
  }

  lemma {:induction false} GrowsOther(s: State, s': State, r: Record, t: TxnId, u: TxnId)
    requires LogGrows(s, s', r, t) && Shape(s) && u in s.txns && u != t && TxnOk(s, u)
    ensures TxnOk(s', u)
  {
    forall loc | loc in s'.txns[u].first ensures FirstOk(s', u, loc) {
      assert FirstOk(s, u, loc);
    }
    assert PhaseOk(s, u);
    assert PhaseOk(s', u);
  }

  lemma {:induction false} GrowsLog(s: State, s': State, r: Record, t: TxnId)
    requires LogGrows(s, s', r, t) && Shape(s) && LogOk(s) && Accounted(s', |s.log|)
    ensures LogOk(s')
  {
    forall i | s'.ckpt <= i < |s'.log| ensures Accounted(s', i) {
      if i < |s.log| {
        assert Accounted(s, i);
        if s.log[i].SetVal? && EndedBy(s, s.log[i].t, i) {
          var k :| 0 <= k < |s.log| && i < k < s.durable && Ends(s.log[k], s.log[i].t);
          assert Ends(s'.log[k], s'.log[i].t);
        }
      }
    }
  }

  /** What `t` itself must show about a location. */
  ghost predicate MineOk(s': State, t: TxnId, loc: Loc)
    requires t in s'.txns
  {
    Guards(s', t, loc.block) ==> if loc in s'.txns[t].first then OwnVal(s', t, loc) else Settled(s', loc)
  }

  lemma {:induction false} GrowsLoc(s: State, s': State, r: Record, t: TxnId, loc: Loc)
    requires LogGrows(s, s', r, t) && LocOk(s, loc) && MineOk(s', t, loc)
    requires Guards(s', t, loc.block) == Guards(s, t, loc.block)
    ensures LocOk(s', loc)
  {
    forall u | u in s'.txns && u != t ensures Guards(s', u, loc.block) == Guards(s, u, loc.block) {
    }
    forall u | u in s'.txns && Guards(s', u, loc.block)
      ensures if loc in s'.txns[u].first then OwnVal(s', u, loc) else Settled(s', loc)
    {
      if u != t {
        assert Guards(s, u, loc.block);
      }
    }
    if forall u :: u in s'.txns ==> !Guards(s', u, loc.block) {
      forall u | u in s.txns ensures !Guards(s, u, loc.block) {
        assert u in s'.txns;
      }
    }
  }

  lemma {:induction false} GrowsKeeps(s: State, s': State, r: Record, t: TxnId)
    requires Up(s) && LogGrows(s, s', r, t)
    requires TxnOk(s', t) && Accounted(s', |s.log|)
    requires forall loc :: MineOk(s', t, loc)
    requires forall b :: Guards(s', t, b) == Guards(s, t, b)
    requires s'.txns[t].phase.Ending? ==> !s.Owns(t)
    ensures Up(s')
  {
    hide LockState.Meaning, Serial, ReplayAll, TxnOk;
    forall u | u in s'.txns ensures TxnOk(s', u) {
      if u != t {
        GrowsOther(s, s', r, t, u);
      }
    }
    GrowsLog(s, s', r, t);
    forall loc ensures LocOk(s', loc) {
      assert LocOk(s, loc);
      GrowsLoc(s, s', r, t, loc);
    }
    forall b | b in s'.cache ensures FrameOk(s', b) {
      assert FrameOk(s, b);
    }
    forall b | b in s'.cache && s'.cache[b].owner != -1 ensures Guards(s', s'.cache[b].owner, b) {
      assert Guards(s, s.cache[b].owner, b);
    }
    assert NoCheckpoint(s');
    assert TxnsOk(s');
  }

  lemma {:induction false} StepBegin(s: State)
    requires Up(s) && Enabled(s, Begin)
    ensures Up(Apply(s, Begin))
  {
    var s' := Apply(s, Begin);
    var t := s'.lastId;
    assert t in s.txns ==> TxnOk(s, t);
    assert t !in s.txns;
    forall b ensures !s.locks.HoldsX(t, b) {
      assert !s.locks.Holds(t, b);
    }
    assert forall loc :: !Touches([], loc) && !Writes([], loc);
    assert TxnOk(s', t);
    GrowsKeeps(s, s', Start(t), t);
  }

  /** With no dirty page of its own, a transaction's blocks are the same on disk and in memory. */
  lemma {:induction false} Forced(s: State, t: TxnId, loc: Loc)
    requires Up(s) && Guards(s, t, loc.block) && !s.Owns(t)
    ensures MemVal(s, loc) == DiskVal(s, loc)
  {
    if loc.block in s.cache {
      assert FrameOk(s, loc.block);
      var u := s.cache[loc.block].owner;
      if u != -1 {
        OneGuard(s, u, t, loc.block);
      }
      assert Get(s.cache[loc.block].page, loc.field) == Get(ReadBlock(s.disk, loc.block), loc.field);
    }
  }

  lemma {:induction false} EndingTxn(s: State, s': State, r: Record, t: TxnId, commit: bool)
    requires Shape(s) && NoCheckpoint(s) && t in s.txns && TxnOk(s, t)
    requires s.txns[t].phase == if commit then Active else Undone
    requires r == if commit then Commit(t) else Rollback(t)
    requires s' == s.Append(r).SetPhase(t, Ending(|s.log|, commit))
    ensures TxnOk(s', t)
  {
    forall loc | loc in s'.txns[t].first ensures FirstOk(s', t, loc) {
      assert FirstOk(s, t, loc);
    }
    assert Live(s, t) && Live(s', t);
    assert PhaseOk(s', t);
  }

  lemma {:induction false} EndingLoc(s: State, s': State, r: Record, t: TxnId, commit: bool, loc: Loc)
    requires Shape(s) && t in s.txns && LocOk(s, loc)
    requires s.txns[t].phase == if commit then Active else Undone
    requires s' == s.Append(r).SetPhase(t, Ending(|s.log|, commit))
    requires Guards(s, t, loc.block) ==> MemVal(s, loc) == DiskVal(s, loc)
    ensures MineOk(s', t, loc)
  {
    if Guards(s', t, loc.block) {
      assert Guards(s, t, loc.block);
    }
  }

  lemma {:induction false} StepLogEnd(s: State, t: TxnId, commit: bool)
    requires Up(s) && Enabled(s, if commit then LogCommit(t) else LogRollback(t))
    ensures Up(Apply(s, if commit then LogCommit(t) else LogRollback(t)))
  {
    var r := if commit then Commit(t) else Rollback(t);
    var s' := Apply(s, if commit then LogCommit(t) else LogRollback(t));
    assert TxnOk(s, t);
    EndingTxn(s, s', r, t, commit);
    forall loc ensures MineOk(s', t, loc) {
      if Guards(s, t, loc.block) {
        Forced(s, t, loc);
      }
      assert LocOk(s, loc);
      EndingLoc(s, s', r, t, commit, loc);
    }
    assert forall b :: Guards(s', t, b) == Guards(s, t, b);
    GrowsKeeps(s, s', r, t);
  }

  // ---- Logging the old value ----

  lemma {:induction false} LogOldTxn(s: State, s': State, t: TxnId, loc: Loc, v: Value)
    requires Shape(s) && NoCheckpoint(s) && t in s.txns && TxnOk(s, t) && LocOk(s, loc) && Guards(s, t, loc.block)
    requires CanLog(s, t, loc) && s' == ApplyLogOld(s, t, loc, v)
    ensures TxnOk(s', t)
  {
    hide LockState.Meaning, Serial, ReplayAll;
    forall l | l in s'.txns[t].first ensures FirstOk(s', t, l) {
      if l in s.txns[t].first {
        assert FirstOk(s, t, l);
      } else {
        assert l == loc && Settled(s, loc);
      }
    }
    assert Live(s, t) && Live(s', t);
    forall l | l in s'.txns[t].first ensures s'.txns[t].first[l] < s'.base + s'.txns[t].phase.lsn {
      if l in s.txns[t].first { assert FirstOk(s, t, l); }
    }
    assert PhaseOk(s', t);
  }

  lemma {:induction false} LogOldLoc(s: State, s': State, t: TxnId, loc: Loc, v: Value, l: Loc)
    requires Shape(s) && t in s.txns && TxnOk(s, t) && LocOk(s, l)
    requires CanLog(s, t, loc) && s' == ApplyLogOld(s, t, loc, v)
    ensures MineOk(s', t, l)
  {
    if Guards(s', t, l.block) {
      assert Guards(s, t, l.block);
      if l !in s.txns[t].first {
        assert !Writes(s.txns[t].ops, l);
        Unwritten(s.committed, s.txns[t].ops, l);
      }
    }
  }

  lemma {:induction false} LogOldGrows(s: State, s': State, t: TxnId, loc: Loc, v: Value)
    requires Shape(s) && t in s.txns && t <= s.lastId
    requires loc in s.txns[t].first ==> s.txns[t].first[loc] < |s.log|
    requires CanLog(s, t, loc) && s' == ApplyLogOld(s, t, loc, v)
    ensures LogGrows(s, s', SetVal(t, loc, s.Buffered(loc)), t) && Accounted(s', |s.log|)
    ensures forall b :: Guards(s', t, b) == Guards(s, t, b)
    ensures !s'.txns[t].phase.Ending?
  {
  }

  lemma {:induction false} StepLogOld(s: State, t: TxnId, loc: Loc, v: Value)
    requires Up(s) && CanLog(s, t, loc)
    ensures Up(ApplyLogOld(s, t, loc, v))
  {
    var s' := ApplyLogOld(s, t, loc, v);
    assert TxnOk(s, t) && LocOk(s, loc);
    assert Guards(s, t, loc.block);
    LogOldTxn(s, s', t, loc, v);
    assert loc in s.txns[t].first ==> FirstOk(s, t, loc);
    LogOldGrows(s, s', t, loc, v);
    forall l ensures MineOk(s', t, l) {
      assert LocOk(s, l);
      LogOldLoc(s, s', t, loc, v, l);
    }
    GrowsKeeps(s, s', SetVal(t, loc, s.Buffered(loc)), t);
  }

  // ---- Steps of one transaction that leave the log alone ----

  ghost predicate TxnMoves(s: State, s': State, t: TxnId) {
    && s' == s.(txns := s'.txns, cache := s'.cache)
    && t in s.txns && s'.txns.Keys == s.txns.Keys
    && (forall u :: u in s.txns && u != t ==> s'.txns[u] == s.txns[u])
    && s'.txns[t].first == s.txns[t].first && s'.txns[t].start == s.txns[t].start
    && !s.txns[t].phase.Ending? && !s'.txns[t].phase.Ending?
    && s'.cache.Keys == s.cache.Keys
    && (forall b :: b in s.cache && s'.cache[b] != s.cache[b] ==> Guards(s, t, b) && s'.cache[b].owner == t)
  }

  lemma {:induction false} MovesOther(s: State, s': State, t: TxnId, u: TxnId)
    requires TxnMoves(s, s', t) && Shape(s) && u in s.txns && u != t && TxnOk(s, u)
    ensures TxnOk(s', u)
  {
    forall loc | loc in s'.txns[u].first ensures FirstOk(s', u, loc) {
      assert FirstOk(s, u, loc);
    }
    assert PhaseOk(s, u);
    assert PhaseOk(s', u);
  }

  lemma {:induction false} MovesLoc(s: State, s': State, t: TxnId, loc: Loc)
    requires TxnMoves(s, s', t) && Shape(s) && LocOk(s, loc) && MineOk(s', t, loc)
    ensures LocOk(s', loc)
  {
    assert forall u :: Guards(s', u, loc.block) == Guards(s, u, loc.block);
    forall u | u in s'.txns && Guards(s', u, loc.block)
      ensures if loc in s'.txns[u].first then OwnVal(s', u, loc) else Settled(s', loc)
    {
      if u != t {
        assert !Guards(s, t, loc.block) by {
          if Guards(s, t, loc.block) { OneGuard(s, t, u, loc.block); }
        }
        assert loc.block in s.cache ==> s'.cache[loc.block] == s.cache[loc.block];
      }
    }
    if forall u :: u in s'.txns ==> !Guards(s', u, loc.block) {
      assert !Guards(s, t, loc.block);
      assert loc.block in s.cache ==> s'.cache[loc.block] == s.cache[loc.block];
    }
  }

  lemma {:induction false} MovesKeeps(s: State, s': State, t: TxnId)
    requires Up(s) && TxnMoves(s, s', t) && TxnOk(s', t)
    requires t >= 0 && forall loc :: MineOk(s', t, loc)
    requires forall b :: b in s'.cache ==> s'.cache[b].lsn < s'.NextLsn()
    ensures Up(s')
  {
    hide LockState.Meaning, Serial, ReplayAll, TxnOk;
    forall u | u in s'.txns ensures TxnOk(s', u) {
      if u != t {
        MovesOther(s, s', t, u);
      }
    }
    SameLog(s, s');
    forall loc ensures LocOk(s', loc) {
      assert LocOk(s, loc);
      MovesLoc(s, s', t, loc);
    }
    forall b | b in s'.cache ensures FrameOk(s', b) {
      assert FrameOk(s, b);
    }
    assert forall u, b :: Guards(s', u, b) == Guards(s, u, b);
    assert OwnersGuard(s');
    assert NoCheckpoint(s');
    assert TxnsOk(s');
  }

  lemma {:induction false} ReadValueTxn(s: State, s': State, t: TxnId, loc: Loc)
    requires Up(s) && Enabled(s, ReadValue(t, loc)) && s' == Apply(s, ReadValue(t, loc))
    ensures TxnOk(s', t)
  {
    hide LockState.Meaning, Serial, ReplayAll, LocOk, FrameOk;
    var op := Read(loc, s.Buffered(loc));
    var x, x' := s.txns[t], s'.txns[t];
    assert TxnOk(s, t);
    ReadsCommitted(s, t, loc);
    ApplySnoc(s.committed, x.ops, op);
    SnocTouches(x.ops, op);
    forall l | l in x'.first ensures FirstOk(s', t, l) {
      assert FirstOk(s, t, l);
    }
  }

  lemma {:induction false} ReadValueMine(s: State, s': State, t: TxnId, loc: Loc, l: Loc)
    requires s.mode.Running? && Enabled(s, ReadValue(t, loc)) && s' == Apply(s, ReadValue(t, loc)) && LocOk(s, l)
    ensures MineOk(s', t, l)
  {
    ApplySnoc(s.committed, s.txns[t].ops, Read(loc, s.Buffered(loc)));
  }

  lemma {:induction false} StepReadValue(s: State, t: TxnId, loc: Loc)
    requires Up(s) && Enabled(s, ReadValue(t, loc))
    ensures Up(Apply(s, ReadValue(t, loc)))
  {
    hide LockState.Meaning, Serial, ReplayAll, Consistent, LocOk, MineOk, PhaseOk, FirstOk;
    var s' := Apply(s, ReadValue(t, loc));
    assert TxnOk(s, t);
    ReadValueTxn(s, s', t, loc);
    forall l ensures MineOk(s', t, l) {
      ReadValueMine(s, s', t, loc, l);
    }
    forall b | b in s'.cache ensures s'.cache[b].lsn < s'.NextLsn() {
      assert FrameOk(s, b);
    }
    MovesKeeps(s, s', t);
  }

  lemma SnocTouches(ops: seq<Op>, op: Op)
    ensures forall l :: Touches(ops + [op], l) <==> Touches(ops, l) || l == op.loc
    ensures forall l :: Writes(ops + [op], l) <==> Writes(ops, l) || (op.Write? && l == op.loc)
  {
    var all := ops + [op];
    assert all[|ops|] == op;
    assert forall i :: 0 <= i < |ops| ==> all[i] == ops[i];
    forall l | Touches(ops, l) ensures Touches(all, l) {
      var i :| 0 <= i < |ops| && ops[i].loc == l;
      assert all[i].loc == l;
    }
    forall l | Writes(ops, l) ensures Writes(all, l) {
      var i :| 0 <= i < |ops| && ops[i].Write? && ops[i].loc == l;
      assert all[i].loc == l;
    }
  }

  /** With any lock on a block, an active transaction sees the committed value or its own last write. */
  lemma {:induction false} ReadsCommitted(s: State, t: TxnId, loc: Loc)
    requires Up(s) && s.IsIn(t, Active) && s.locks.Holds(t, loc.block)
    ensures MemVal(s, loc) == Look(ApplyOps(s.committed, s.txns[t].ops), loc)
  {
    assert TxnOk(s, t);
    assert LocOk(s, loc);
    if loc in s.txns[t].first {
      assert FirstOk(s, t, loc);
      assert Guards(s, t, loc.block);
    } else {
      assert !Writes(s.txns[t].ops, loc);
      Unwritten(s.committed, s.txns[t].ops, loc);
      forall u | u in s.txns && Guards(s, u, loc.block) ensures u == t {
        OneGuard(s, u, t, loc.block);
      }
      assert Settled(s, loc);
    }
  }

  lemma {:induction false} ChangedLoc(s: State, s': State, t: TxnId, l: Loc)
    requires Enabled(s, ChangePage(t)) && s' == Apply(s, ChangePage(t))
    requires LocOk(s, l) && TxnOk(s, t)
    ensures MineOk(s', t, l)
  {
    var x := s.txns[t];
    var p := x.phase;
    ApplySnoc(s.committed, x.ops, Write(p.loc, p.value));
    assert s'.txns[t].phase == Active && s'.txns[t].first == x.first;
    assert MemVal(s', l) == if l == p.loc then p.value else MemVal(s, l);
    if Guards(s', t, l.block) {
      assert Guards(s, t, l.block);
      assert PhaseOk(s, t);
    }
  }

  lemma {:induction false} ChangedTxn(s: State, s': State, t: TxnId)
    requires Enabled(s, ChangePage(t)) && s' == Apply(s, ChangePage(t)) && TxnOk(s, t)
    ensures TxnOk(s', t) && Guards(s, t, s.txns[t].phase.loc.block)
    ensures s.txns[t].phase.lsn < s.NextLsn()
  {
    var x, x' := s.txns[t], s'.txns[t];
    var op := Write(x.phase.loc, x.phase.value);
    assert PhaseOk(s, t) && FirstOk(s, t, x.phase.loc);
    ApplySnoc(s.committed, x.ops, op);
    SnocTouches(x.ops, op);
    forall l | l in x'.first ensures FirstOk(s', t, l) {
      assert FirstOk(s, t, l);
    }
  }

  lemma {:induction false} StepChangePage(s: State, t: TxnId)
    requires Up(s) && Enabled(s, ChangePage(t))
    ensures Up(Apply(s, ChangePage(t)))
  {
    hide LockState.Meaning, Serial, ReplayAll, Consistent, LocOk, MineOk, PhaseOk, FirstOk;
    var s' := Apply(s, ChangePage(t));
    assert TxnOk(s, t);
    ChangedTxn(s, s', t);
    forall l ensures MineOk(s', t, l) {
      assert LocOk(s, l);
      ChangedLoc(s, s', t, l);
    }
    forall b | b in s'.cache ensures s'.cache[b].lsn < s'.NextLsn() {
      assert FrameOk(s, b);
    }
    MovesKeeps(s, s', t);
  }

  // ---- Rollback: one turn of its loop ----

  lemma {:induction false} StepBeginUndo(s: State, t: TxnId)
    requires Up(s) && Enabled(s, BeginUndo(t))
    ensures Up(Apply(s, BeginUndo(t)))
  {
    hide LockState.Meaning, Serial, ReplayAll, Consistent;
    var s' := Apply(s, BeginUndo(t));
    assert TxnOk(s, t);
    forall l | l in s'.txns[t].first ensures FirstOk(s', t, l) {
      assert FirstOk(s, t, l);
    }
    assert TxnOk(s', t);
    forall l ensures MineOk(s', t, l) {
      assert LocOk(s, l);
    }
    forall b | b in s'.cache ensures s'.cache[b].lsn < s'.NextLsn() {
      assert FrameOk(s, b);
    }
    MovesKeeps(s, s', t);
  }

  /** A record of `t` after its START is one of the changes that this `t` made. */
  lemma {:induction false} OwnRecord(s: State, t: TxnId, i: nat)
    requires Shape(s) && t in s.txns && TxnOk(s, t) && !s.txns[t].phase.Ending?
    requires s.txns[t].start <= i < |s.log| && Sets(s.log[i], t) && Accounted(s, i)
    ensures s.ckpt <= i && s.log[i].loc in s.txns[t].first && s.txns[t].first[s.log[i].loc] <= i
    ensures Guards(s, t, s.log[i].loc.block)
  {
    assert forall k :: s.ckpt <= k < |s.log| ==> !Ends(s.log[k], t);
    assert FirstOk(s, t, s.log[i].loc);
  }

  lemma {:induction false} UndoneSet(s: State, s': State, t: TxnId, l: Loc)
    requires Shape(s) && t in s.txns && TxnOk(s, t) && LocOk(s, l) && CanUndo(s, t)
    requires var pos := s.txns[t].phase.pos;
             pos > 0 && Sets(s.log[pos - 1], t) && Accounted(s, pos - 1) &&
             s' == s.Modify(t, s.log[pos - 1].loc, s.log[pos - 1].was, -1).SetPhase(t, Undoing(pos - 1))
    ensures MineOk(s', t, l)
  {
    hide LockState.Meaning, Serial, ReplayAll;
    var x := s.txns[t];
    var r := s.log[x.phase.pos - 1];
    assert PhaseOk(s, t);
    OwnRecord(s, t, x.phase.pos - 1);
    if Guards(s', t, l.block) {
      assert Guards(s, t, l.block);
      if l in x.first {
        assert FirstOk(s, t, l);
      } else {
        assert l != r.loc;
      }
    }
  }

  lemma {:induction false} UndoneOther(s: State, s': State, t: TxnId, l: Loc)
    requires Shape(s) && t in s.txns && TxnOk(s, t) && LocOk(s, l) && CanUndo(s, t)
    requires var pos := s.txns[t].phase.pos;
             pos > 0 && !Sets(s.log[pos - 1], t) &&
             s' == s.SetPhase(t, if s.log[pos - 1] == Start(t) then Undone else Undoing(pos - 1))
    ensures MineOk(s', t, l)
  {
    var x := s.txns[t];
    if Guards(s', t, l.block) {
      assert Guards(s, t, l.block);
      if l in x.first {
        assert FirstOk(s, t, l);
      }
    }
  }

  /** A new phase of an undoing transaction; nothing that its other facts speak of changes. */
  lemma {:induction false} UndoPhase(s: State, s': State, t: TxnId, p: Phase)
    requires t in s.txns && TxnOk(s, t) && !s.txns[t].phase.Ending? && (p.Undoing? || p.Undone?)
    requires s' == s.(cache := s'.cache, txns := s.txns[t := s.txns[t].(phase := p)])
    requires PhaseOk(s', t)
    ensures TxnOk(s', t)
  {
    forall l | l in s'.txns[t].first ensures FirstOk(s', t, l) {
      assert FirstOk(s, t, l);
    }
  }

  function UndoResult(s: State, t: TxnId): State
    requires t in s.txns && s.txns[t].phase.Undoing? && 0 < s.txns[t].phase.pos <= |s.log|
    requires Sets(s.log[s.txns[t].phase.pos - 1], t) ==> s.log[s.txns[t].phase.pos - 1].loc.block in s.cache
  {
    var pos := s.txns[t].phase.pos;
    if Sets(s.log[pos - 1], t)
    then s.Modify(t, s.log[pos - 1].loc, s.log[pos - 1].was, -1).SetPhase(t, Undoing(pos - 1))
    else s.SetPhase(t, if s.log[pos - 1] == Start(t) then Undone else Undoing(pos - 1))
  }

  lemma {:induction false} UndoForm(s: State, t: TxnId)
    requires CanUndo(s, t) && s.txns[t].phase.pos > 0
    ensures ApplyUndo(s, t) == UndoResult(s, t)
  {
  }

  lemma {:induction false} UndoMoves(s: State, t: TxnId)
    requires CanUndo(s, t) && s.txns[t].phase.pos > 0
    requires Sets(s.log[s.txns[t].phase.pos - 1], t) ==> Guards(s, t, s.log[s.txns[t].phase.pos - 1].loc.block)
    ensures TxnMoves(s, UndoResult(s, t), t)
  {
  }

  lemma {:induction false} UndoShape(s: State, s': State, t: TxnId)
    requires Shape(s) && t in s.txns && TxnOk(s, t) && CanUndo(s, t) && s' == ApplyUndo(s, t)
    requires var pos := s.txns[t].phase.pos; pos > 0 && Accounted(s, pos - 1)
    ensures TxnMoves(s, s', t) && s' == UndoResult(s, t)
  {
    var pos := s.txns[t].phase.pos;
    if Sets(s.log[pos - 1], t) {
      assert PhaseOk(s, t);
      OwnRecord(s, t, pos - 1);
    }
    UndoForm(s, t);
    UndoMoves(s, t);
  }

  lemma {:induction false} UndoTxn(s: State, s': State, t: TxnId)
    requires Shape(s) && t in s.txns && TxnOk(s, t) && CanUndo(s, t) && s' == ApplyUndo(s, t)
    requires var pos := s.txns[t].phase.pos; pos > 0 && Accounted(s, pos - 1)
    ensures TxnMoves(s, s', t) && TxnOk(s', t)
  {
    UndoShape(s, s', t);
    assert PhaseOk(s, t);
    UndoPhase(s, s', t, s'.txns[t].phase);
  }

  lemma {:induction false} UndoLoc(s: State, s': State, t: TxnId, l: Loc)
    requires Shape(s) && t in s.txns && TxnOk(s, t) && LocOk(s, l) && CanUndo(s, t) && s' == ApplyUndo(s, t)
    requires var pos := s.txns[t].phase.pos; pos > 0 && Accounted(s, pos - 1)
    ensures MineOk(s', t, l)
  {
    UndoShape(s, s', t);
    if Sets(s.log[s.txns[t].phase.pos - 1], t) {
      UndoneSet(s, s', t, l);
    } else {
      UndoneOther(s, s', t, l);
    }
  }

  lemma {:induction false} UndoReady(s: State, t: TxnId)
    requires Shape(s) && LogOk(s) && t in s.txns && TxnOk(s, t) && s.txns[t].phase.Undoing?
    ensures 0 < s.txns[t].phase.pos <= |s.log| && Accounted(s, s.txns[t].phase.pos - 1)
  {
    assert PhaseOk(s, t);
    var i := s.txns[t].phase.pos - 1;
    if i >= s.ckpt {
      assert Accounted(s, i);
    }
  }

  lemma {:induction false} StepUndoOne(s: State, t: TxnId)
    requires Up(s) && CanUndo(s, t)
    ensures Up(ApplyUndo(s, t))
  {
    var s' := ApplyUndo(s, t);
    assert TxnOk(s, t);
    UndoReady(s, t);
    UndoTxn(s, s', t);
    forall l ensures MineOk(s', t, l) {
      assert LocOk(s, l);
      UndoLoc(s, s', t, l);
    }
    forall b | b in s'.cache ensures s'.cache[b].lsn < s'.NextLsn() {
      assert FrameOk(s, b);
      UndoForm(s, t);
    }
    MovesKeeps(s, s', t);
  }

  // ---- One more record on disk ----

  ghost predicate Ending1(s: State, t: TxnId) {
    t in s.txns && s.txns[t].phase.Ending? && s.txns[t].phase.at == s.durable
  }

  /** The machine after `Persist`, with what it commits made explicit. */
  ghost predicate Persisted(s: State, s': State) {
    && s.durable < |s.log|
    && s' == s.(durable := s.durable + 1, done := s'.done, committed := s'.committed)
    && (forall u :: u in s.txns && u != Id(s.log[s.durable]) ==> !Ending1(s, u))
  }

  lemma {:induction false} PersistOtherTxn(s: State, s': State, u: TxnId)
    requires Persisted(s, s') && Shape(s) && u in s.txns && TxnOk(s, u) && !Ending1(s, u)
    requires forall loc: Loc :: s.locks.Holds(u, loc.block) && Live(s, u) ==> Com(s', loc) == Com(s, loc)
    ensures TxnOk(s', u)
  {
    assert Live(s', u) == Live(s, u);
    forall loc | loc in s'.txns[u].first ensures FirstOk(s', u, loc) {
      assert FirstOk(s, u, loc);
    }
    assert PhaseOk(s, u);
    assert PhaseOk(s', u);
    if Live(s, u) && Consistent(s.committed, s.txns[u].ops) {
      ConsistentFrame(s.committed, s'.committed, s.txns[u].ops);
    }
  }

  lemma {:induction false} PersistEndedTxn(s: State, s': State, u: TxnId)
    requires Persisted(s, s') && Shape(s) && u in s.txns && TxnOk(s, u) && Ending1(s, u)
    ensures TxnOk(s', u)
  {
    forall loc | loc in s'.txns[u].first ensures FirstOk(s', u, loc) {
      assert FirstOk(s, u, loc);
    }
    assert PhaseOk(s, u);
    assert PhaseOk(s', u);
  }

  lemma {:induction false} PersistLog(s: State, s': State)
    requires Persisted(s, s') && Shape(s) && LogOk(s)
    ensures LogOk(s')
  {
    forall i | s'.ckpt <= i < |s'.log| ensures Accounted(s', i) {
      assert Accounted(s, i);
      if s.log[i].SetVal? && EndedBy(s, s.log[i].t, i) {
        var k :| 0 <= k < |s.log| && i < k < s.durable && Ends(s.log[k], s.log[i].t);
        assert Ends(s'.log[k], s'.log[i].t);
      }
    }
  }

  /** A location that the ended transaction does not guard. */
  lemma {:induction false} PersistOtherLoc(s: State, s': State, t: TxnId, loc: Loc)
    requires Persisted(s, s') && Shape(s) && t == Id(s.log[s.durable]) && LocOk(s, loc)
    requires t in s.txns && Ending1(s, t) ==> !Guards(s, t, loc.block)
    requires Com(s', loc) == Com(s, loc)
    ensures LocOk(s', loc)
  {
    assert forall u :: u in s.txns ==> Guards(s', u, loc.block) == Guards(s, u, loc.block);
    forall u | u in s'.txns && Guards(s', u, loc.block)
      ensures if loc in s'.txns[u].first then OwnVal(s', u, loc) else Settled(s', loc)
    {
      WrittenIgnoresStart(s.committed, s'.committed, s.txns[u].ops, loc);
    }
  }

  /** A location that it does guard is settled from now on. */
  lemma {:induction false} PersistEndedLoc(s: State, s': State, t: TxnId, loc: Loc)
    requires Persisted(s, s') && Shape(s) && t == Id(s.log[s.durable]) && LocOk(s, loc)
    requires t in s.txns && TxnOk(s, t) && Ending1(s, t) && Guards(s, t, loc.block)
    requires s'.committed == if s.txns[t].phase.commit then ApplyOps(s.committed, s.txns[t].ops) else s.committed
    ensures LocOk(s', loc)
  {
    if loc !in s.txns[t].first {
      assert !Writes(s.txns[t].ops, loc);
      Unwritten(s.committed, s.txns[t].ops, loc);
    }
    assert Settled(s', loc);
    forall u | u in s'.txns ensures !Guards(s', u, loc.block) {
      if Guards(s, u, loc.block) {
        OneGuard(s, t, u, loc.block);
      }
    }
  }

  lemma {:induction false} PersistKeeps(s: State, s': State, t: TxnId)
    requires Up(s) && Persisted(s, s') && t == Id(s.log[s.durable])
    requires t in s.txns && Ending1(s, t) ==>
               s'.committed == if s.txns[t].phase.commit then ApplyOps(s.committed, s.txns[t].ops) else s.committed
    requires !(t in s.txns && Ending1(s, t)) ==> s'.committed == s.committed
    ensures RunningOk(s')
  {
    forall loc: Loc | !(t in s.txns && Ending1(s, t) && Guards(s, t, loc.block))
      ensures Com(s', loc) == Com(s, loc)
    {
      PersistSame(s, s', t, loc);
    }
    forall u | u in s'.txns ensures TxnOk(s', u) {
      if Ending1(s, u) {
        PersistEndedTxn(s, s', u);
      } else {
        forall loc: Loc | s.locks.Holds(u, loc.block) && Live(s, u) ensures Com(s', loc) == Com(s, loc) {
          if t in s.txns && Ending1(s, t) && Guards(s, t, loc.block) {
            OneGuard(s, t, u, loc.block);
          }
        }
        PersistOtherTxn(s, s', u);
      }
    }
    PersistLog(s, s');
    forall loc ensures LocOk(s', loc) {
      assert LocOk(s, loc);
      if t in s.txns && Ending1(s, t) && Guards(s, t, loc.block) {
        PersistEndedLoc(s, s', t, loc);
      } else {
        PersistOtherLoc(s, s', t, loc);
      }
    }
    assert OwnersGuard(s');
    assert NoCheckpoint(s');
    assert TxnsOk(s');
  }

  lemma {:induction false} PersistSame(s: State, s': State, t: TxnId, loc: Loc)
    requires Up(s)
    requires !(t in s.txns && Ending1(s, t) && Guards(s, t, loc.block))
    requires t in s.txns && Ending1(s, t) ==>
               s'.committed == if s.txns[t].phase.commit then ApplyOps(s.committed, s.txns[t].ops) else s.committed
    requires !(t in s.txns && Ending1(s, t)) ==> s'.committed == s.committed
    ensures Com(s', loc) == Com(s, loc)
  {
    if t in s.txns && Ending1(s, t) {
      assert TxnOk(s, t);
      assert loc in s.txns[t].first ==> FirstOk(s, t, loc);
      assert !Writes(s.txns[t].ops, loc);
      Unwritten(s.committed, s.txns[t].ops, loc);
    }
  }

  /** The record that reaches the disk ends its transaction exactly when it is a COMMIT or ROLLBACK. */
  lemma {:induction false} PersistWho(s: State)
    requires Up(s) && CanPersist(s)
    ensures var r := s.log[s.durable];
            && !r.Checkpoint?
            && (forall u :: u in s.txns && u != r.t ==> !Ending1(s, u))
            && ((r.Commit? || r.Rollback?) == (r.t in s.txns && Ending1(s, r.t)))
            && (r.Commit? ==> s.txns[r.t].phase.commit && Consistent(s.committed, s.txns[r.t].ops))
            && (r.Rollback? ==> !s.txns[r.t].phase.commit)
  {
    var r := s.log[s.durable];
    forall u | u in s.txns && u != r.t ensures !Ending1(s, u) {
      assert TxnOk(s, u) && PhaseOk(s, u);
    }
    if r.t in s.txns {
      assert TxnOk(s, r.t) && PhaseOk(s, r.t);
      assert r.Commit? || r.Rollback? ==> Ends(r, r.t);
    }
  }

  lemma {:induction false} PersistShape(s: State)
    requires Shape(s) && CanPersist(s) && !s.log[s.durable].Checkpoint?
    requires var r := s.log[s.durable];
             r.Commit? ==> r.t in s.txns && Consistent(s.committed, s.txns[r.t].ops)
    ensures Shape(ApplyPersist(s))
  {
    var r := s.log[s.durable];
    if r.Commit? {
      ReplaySnoc(map[], s.done, s.txns[r.t].ops);
    }
  }

  lemma {:induction false} StepPersistRunning(s: State)
    requires Up(s) && CanPersist(s)
    ensures Up(ApplyPersist(s))
  {
    hide LockState.Meaning, Serial, ReplayAll, RunningOk;
    var s' := ApplyPersist(s);
    PersistWho(s);
    PersistShape(s);
    PersistKeeps(s, s', s.log[s.durable].t);
    forall b | b in s'.cache ensures FrameOk(s', b) {
      assert FrameOk(s, b);
    }
  }

  // ---- Releasing the locks and forgetting the transaction ----

  ghost predicate DoneStep(s: State, s': State, t: TxnId) {
    && s.Released(t)
    && s' == s.(locks := s'.locks, txns := s'.txns)
    && (forall u :: u in s'.txns ==> u in s.txns && s'.txns[u] == s.txns[u])
    && (forall u :: u in s.txns && u != t ==> u in s'.txns)
    && (forall u, b :: u != t ==> s'.locks.Holds(u, b) == s.locks.Holds(u, b))
    && (forall u, b :: u != t ==> s'.locks.HoldsX(u, b) == s.locks.HoldsX(u, b))
  }

  lemma {:induction false} DoneGuards(s: State, s': State, t: TxnId, b: BlockId)
    requires DoneStep(s, s', t)
    ensures forall u :: Live(s', u) == Live(s, u)
    ensures forall u :: Guards(s', u, b) == Guards(s, u, b)
  {
  }

  lemma {:induction false} DoneLoc(s: State, s': State, t: TxnId, loc: Loc)
    requires LocOk(s, loc) && DoneStep(s, s', t)
    ensures LocOk(s', loc)
  {
    DoneGuards(s, s', t, loc.block);
    if forall u :: u in s'.txns ==> !Guards(s', u, loc.block) {
      forall u | u in s.txns ensures !Guards(s, u, loc.block) {
        assert !Guards(s', u, loc.block);
      }
    }
    forall u | u in s'.txns && Guards(s', u, loc.block)
      ensures if loc in s'.txns[u].first then OwnVal(s', u, loc) else Settled(s', loc)
    {
      assert Guards(s, u, loc.block);
    }
  }

  lemma {:induction false} DoneTxn(s: State, s': State, t: TxnId, u: TxnId)
    requires u in s'.txns && DoneStep(s, s', t) && TxnOk(s, u)
    ensures TxnOk(s', u)
  {
    assert Live(s', u) == Live(s, u);
    forall l | l in s'.txns[u].first ensures FirstOk(s', u, l) {
      assert FirstOk(s, u, l);
    }
    assert PhaseOk(s, u);
    assert PhaseOk(s', u);
  }

  lemma {:induction false} DoneKeeps(s: State, s': State, t: TxnId)
    requires Up(s) && DoneStep(s, s', t) && s'.locks.Meaning() && LogOk(s')
    requires forall u, b :: s'.locks.Holds(u, b) ==> u in s'.txns
    ensures Up(s')
  {
    forall u | u in s'.txns ensures TxnOk(s', u) {
      assert TxnOk(s, u);
      DoneTxn(s, s', t, u);
    }
    forall loc ensures LocOk(s', loc) {
      assert LocOk(s, loc);
      DoneLoc(s, s', t, loc);
    }
    forall c | c in s'.cache ensures FrameOk(s', c) {
      assert FrameOk(s, c);
    }
    forall c | c in s'.cache && s'.cache[c].owner != -1 ensures Guards(s', s'.cache[c].owner, c) {
      assert Guards(s, s.cache[c].owner, c) && !Live(s, t);
    }
    assert NoCheckpoint(s');
  }

  lemma {:induction false} ReleaseForm(s: State, s': State, t: TxnId, b: BlockId)
    requires Enabled(s, Release(t, b)) && s' == s.(locks := s.locks.Unlock(t, b))
    ensures DoneStep(s, s', t)
    ensures forall u, c :: s'.locks.Holds(u, c) ==> s.locks.Holds(u, c)
  {
  }

  lemma {:induction false} StepRelease(s: State, t: TxnId, b: BlockId)
    requires Up(s) && Enabled(s, Release(t, b))
    ensures Up(Apply(s, Release(t, b)))
  {
    var s' := Apply(s, Release(t, b));
    UnlockKeepsMeaning(s.locks, t, b);
    ReleaseForm(s, s', t, b);
    SameLog(s, s');
    DoneKeeps(s, s', t);
  }

  lemma {:induction false} FinishLog(s: State, s': State, t: TxnId)
    requires Shape(s) && LogOk(s) && TxnsOk(s) && s.Released(t) && s' == s.(txns := s.txns - {t})
    ensures LogOk(s')
  {
    hide LockState.Meaning, Serial, ReplayAll;
    assert TxnOk(s, t) && PhaseOk(s, t);
    var at := s.txns[t].phase.at;
    assert Ends(s.log[at], t);
    forall i | s'.ckpt <= i < |s'.log| ensures Accounted(s', i) {
      assert Accounted(s, i);
      if s.log[i].SetVal? {
        if s.log[i].t == t {
          assert Sets(s.log[i], t);
          assert EndedBy(s', t, i);
        } else if EndedBy(s, s.log[i].t, i) {
          assert EndedBy(s', s.log[i].t, i);
        }
      }
    }
    forall i | s'.durable <= i < |s'.log| && (s'.log[i].Commit? || s'.log[i].Rollback?)
      ensures s'.log[i].t in s'.txns
    {
      assert !Ends(s.log[i], t);
    }
  }

  lemma {:induction false} StepFinish(s: State, t: TxnId)
    requires Up(s) && Enabled(s, Finish(t))
    ensures Up(Apply(s, Finish(t)))
  {
    var s' := Apply(s, Finish(t));
    FinishLog(s, s', t);
    forall u, b | s'.locks.Holds(u, b) ensures u in s'.txns {
      assert s.locks.Holds(u, b);
    }
    DoneKeeps(s, s', t);
  }
}
