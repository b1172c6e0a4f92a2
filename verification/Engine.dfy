/**
 * The storage engine as one machine of atomic steps: log records, page writes, locks, commit and
 * rollback in several steps each, crashes at any point, and recovery that can itself crash.
 */
module Engine {
  import opened Storage
  import opened Locks
  import opened History

  datatype Record =
    | Start(t: TxnId)
    | Commit(t: TxnId)
    | Rollback(t: TxnId)
    | Checkpoint
    | SetVal(t: TxnId, loc: Loc, was: Value)

  predicate Ends(r: Record, t: TxnId) {
    r == Commit(t) || r == Rollback(t)
  }

  predicate Sets(r: Record, t: TxnId) {
    r.SetVal? && r.t == t
  }

  /** Where a transaction is in its life. */
  datatype Phase =
    | Active
    | Logged(loc: Loc, value: Value, lsn: nat)  // the old value is logged, the page not yet changed
    | Undoing(pos: nat)                         // the backward scan has passed the records from `pos` on
    | Undone
    | Ending(at: nat, commit: bool)             // its last record is in the log at `at`

  /** `ops` and `first` only record history: what was read and written, and where a location was first logged. */
  datatype Txn = Txn(phase: Phase, start: nat, ops: seq<Op>, first: map<Loc, nat>)

  /** A buffered page; `owner` is the modifying transaction, or -1 for a clean page. */
  datatype Frame = Frame(page: Page, owner: TxnId, lsn: int)

  datatype Mode =
    | Running
    | Scanning(pos: nat, finished: set<TxnId>)
    | Scanned
    | Checkpointing(at: nat)
    | Down

  /**
   * On disk: `disk` and the first `durable` records of `log`. In memory: all else down to `mode`.
   * History only: `origin` (the process that wrote each record), `ckpt` (the end of the last
   * checkpoint), `epoch`, `done` (the transactions with durable COMMIT records, in that order) and
   * `committed` (the database that they leave).
   */
  datatype State = State(
    disk: Disk,
    log: seq<Record>,
    durable: nat,
    base: nat,
    cache: map<BlockId, Frame>,
    locks: LockState,
    txns: map<TxnId, Txn>,
    lastId: nat,
    mode: Mode,
    origin: seq<nat>,
    ckpt: nat,
    epoch: nat,
    done: seq<seq<Op>>,
    committed: Store)
  {
    predicate IsIn(t: TxnId, p: Phase) {
      mode.Running? && t in txns && txns[t].phase == p
    }

    /** The LSN of the next record; LSNs count from 1 in every process. */
    function NextLsn(): int {
      |log| - base + 1
    }

    function Append(r: Record): State {
      this.(log := log + [r], origin := origin + [epoch])
    }

    function SetPhase(t: TxnId, p: Phase): State
      requires t in txns
    {
      this.(txns := txns[t := txns[t].(phase := p)])
    }

    /** Change a buffered page and mark it modified; an unlogged change keeps the page's LSN. */
    function Modify(t: TxnId, loc: Loc, v: Value, lsn: int): State
      requires loc.block in cache
    {
      var f := cache[loc.block];
      this.(cache := cache[loc.block := Frame(f.page[loc.field := v], t, if lsn >= 0 then lsn else f.lsn)])
    }

    function Buffered(loc: Loc): Value
      requires loc.block in cache
    {
      Get(cache[loc.block].page, loc.field)
    }

    predicate Owns(t: TxnId) {
      exists b :: b in cache && cache[b].owner == t
    }

    predicate Released(t: TxnId) {
      mode.Running? && t in txns && txns[t].phase.Ending? && txns[t].phase.at < durable
    }
  }

  /** A new database: nothing on disk, every field zero. */
  const NewDatabase := State(map[], [], 0, 0, map[], NoLocks, map[], 0, Running, [], 0, 0, [], map[])

  const RecoveryTxn: TxnId := 1

  datatype Step =
    | Begin
    | ShareLock(t: TxnId, b: BlockId)
    | UpgradeLock(t: TxnId, b: BlockId)
    | ReadValue(t: TxnId, loc: Loc)
    | LogOld(t: TxnId, loc: Loc, value: Value)
    | ChangePage(t: TxnId)
    | Fetch(b: BlockId, lsn: int)
    | WritePage(b: BlockId)
    | Evict(b: BlockId)
    | Persist
    | LogCommit(t: TxnId)
    | BeginUndo(t: TxnId)
    | UndoOne(t: TxnId)
    | LogRollback(t: TxnId)
    | Release(t: TxnId, b: BlockId)
    | Finish(t: TxnId)
    | Crash
    | Restart
    | ScanOne
    | LogCheckpoint
    | Open

  predicate CanLog(s: State, t: TxnId, loc: Loc) {
    s.IsIn(t, Active) && s.locks.HoldsX(t, loc.block) && loc.block in s.cache
  }

  predicate CanPersist(s: State) {
    !s.mode.Down? && s.durable < |s.log|
  }

  predicate CanUndo(s: State, t: TxnId) {
    s.mode.Running? && t in s.txns && s.txns[t].phase.Undoing? &&
    (var pos := s.txns[t].phase.pos;
     pos <= |s.log| && (pos > 0 && Sets(s.log[pos - 1], t) ==> s.log[pos - 1].loc.block in s.cache))
  }

  predicate CanScan(s: State) {
    s.mode.Scanning? && s.durable == |s.log| && s.mode.pos <= |s.log| &&
    (s.mode.pos > 0 && s.log[s.mode.pos - 1].SetVal? && s.log[s.mode.pos - 1].t !in s.mode.finished
     ==> s.log[s.mode.pos - 1].loc.block in s.cache)
  }

  predicate Enabled(s: State, step: Step) {
    match step
    case Begin => s.mode.Running?
    case ShareLock(t, b) => s.IsIn(t, Active) && (s.locks.Holds(t, b) || s.locks.CanShare(b))
    case UpgradeLock(t, b) =>
      s.IsIn(t, Active) && s.locks.Holds(t, b) && (s.locks.HoldsX(t, b) || s.locks.CanUpgrade(b))
    case ReadValue(t, loc) => s.IsIn(t, Active) && s.locks.Holds(t, loc.block) && loc.block in s.cache
    case LogOld(t, loc, _) => CanLog(s, t, loc)
    case ChangePage(t) =>
      s.mode.Running? && t in s.txns && s.txns[t].phase.Logged? && s.txns[t].phase.loc.block in s.cache
    case Fetch(b, lsn) => !s.mode.Down? && b !in s.cache && lsn < s.NextLsn()
    case WritePage(b) => b in s.cache && s.base + s.cache[b].lsn <= s.durable
    case Evict(b) => b in s.cache && s.cache[b].owner == -1
    case Persist => CanPersist(s)
    case LogCommit(t) => s.IsIn(t, Active) && !s.Owns(t)
    case BeginUndo(t) => s.IsIn(t, Active) && s.durable == |s.log|
    case UndoOne(t) => CanUndo(s, t)
    case LogRollback(t) => s.IsIn(t, Undone) && !s.Owns(t)
    case Release(t, b) => s.Released(t) && s.locks.Holds(t, b)
    case Finish(t) => s.Released(t) && s.locks.Held(t) == map[]
    case Crash => s.durable <= |s.log| && s.durable <= |s.origin|
    case Restart => s.mode.Down?
    case ScanOne => CanScan(s)
    case LogCheckpoint => s.mode.Scanned? && !s.Owns(RecoveryTxn)
    case Open => s.mode.Checkpointing? && s.mode.at < s.durable
  }

  function Apply(s: State, step: Step): State
    requires Enabled(s, step)
  {
    match step
    case Begin =>
      var t := s.lastId + 1;
      s.Append(Start(t)).(lastId := t, txns := s.txns[t := Txn(Active, |s.log|, [], map[])])
    case ShareLock(t, b) => s.(locks := s.locks.Share(t, b))
    case UpgradeLock(t, b) => s.(locks := s.locks.Upgrade(t, b))
    case ReadValue(t, loc) =>
      s.(txns := s.txns[t := s.txns[t].(ops := s.txns[t].ops + [Read(loc, s.Buffered(loc))])])
    case LogOld(t, loc, v) => ApplyLogOld(s, t, loc, v)
    case ChangePage(t) =>
      var p := s.txns[t].phase;
      s.Modify(t, p.loc, p.value, p.lsn)
      .(txns := s.txns[t := s.txns[t].(phase := Active, ops := s.txns[t].ops + [Write(p.loc, p.value)])])
    case Fetch(b, lsn) => s.(cache := s.cache[b := Frame(ReadBlock(s.disk, b), -1, lsn)])
    case WritePage(b) =>
      s.(disk := s.disk[b := s.cache[b].page], cache := s.cache[b := s.cache[b].(owner := -1)])
    case Evict(b) => s.(cache := s.cache - {b})
    case Persist => ApplyPersist(s)
    case LogCommit(t) => s.Append(Commit(t)).SetPhase(t, Ending(|s.log|, true))
    case BeginUndo(t) => s.SetPhase(t, Undoing(|s.log|))
    case UndoOne(t) => ApplyUndo(s, t)
    case LogRollback(t) => s.Append(Rollback(t)).SetPhase(t, Ending(|s.log|, false))
    case Release(t, b) => s.(locks := s.locks.Unlock(t, b))
    case Finish(t) => s.(txns := s.txns - {t})
    case Crash =>
      s.(log := s.log[..s.durable], origin := s.origin[..s.durable], cache := map[], locks := NoLocks,
         txns := map[], mode := Down)
    case Restart =>
      s.(base := |s.log|, epoch := s.epoch + 1, lastId := RecoveryTxn).Append(Start(RecoveryTxn))
      .(txns := map[RecoveryTxn := Txn(Active, |s.log|, [], map[])], mode := Scanning(|s.log| + 1, {}))
    case ScanOne => ApplyScan(s)
    case LogCheckpoint => s.Append(Checkpoint).(mode := Checkpointing(|s.log|))
    case Open => s.(mode := Running)
  }

  /** Transaction::SetInt up to the change: the old value goes to the log. */
  function ApplyLogOld(s: State, t: TxnId, loc: Loc, v: Value): State
    requires CanLog(s, t, loc)
  {
    var x := s.txns[t];
    var first := if loc in x.first then x.first else x.first[loc := |s.log|];
    var lsn := s.NextLsn();
    s.Append(SetVal(t, loc, s.Buffered(loc)))
    .(txns := s.txns[t := x.(phase := Logged(loc, v, if lsn >= 0 then lsn else 0), first := first)])
  }

  /** One more record reaches the disk; a COMMIT record commits its transaction here. */
  function ApplyPersist(s: State): State
    requires CanPersist(s)
  {
    var r := s.log[s.durable];
    var s' := s.(durable := s.durable + 1);
    match r
    case Commit(t) =>
      if t in s.txns then s'.(done := s.done + [s.txns[t].ops], committed := ApplyOps(s.committed, s.txns[t].ops))
      else s'
    case Checkpoint => s'.(ckpt := s.durable + 1)
    case _ => s'
  }

  /** One turn of the loop in DoRollback. */
  function ApplyUndo(s: State, t: TxnId): State
    requires CanUndo(s, t)
  {
    var pos := s.txns[t].phase.pos;
    if pos == 0 then s.SetPhase(t, Undone)
    else
      match s.log[pos - 1]
      case Start(u) => s.SetPhase(t, if u == t then Undone else Undoing(pos - 1))
      case SetVal(u, loc, was) =>
        if u == t then s.Modify(t, loc, was, -1).SetPhase(t, Undoing(pos - 1))
        else s.SetPhase(t, Undoing(pos - 1))
      case _ => s.SetPhase(t, Undoing(pos - 1))
  }

  /** One turn of the loop in DoRecover. */
  function ApplyScan(s: State): State
    requires CanScan(s)
  {
    var pos := s.mode.pos;
    var finished := s.mode.finished;
    if pos == 0 then s.(mode := Scanned)
    else
      match s.log[pos - 1]
      case Checkpoint => s.(mode := Scanned)
      case Commit(t) => s.(mode := Scanning(pos - 1, finished + {t}))
      case Rollback(t) => s.(mode := Scanning(pos - 1, finished + {t}))
      case Start(_) => s.(mode := Scanning(pos - 1, finished))
      case SetVal(t, loc, was) =>
        var next := s.(mode := Scanning(pos - 1, finished));
        if t in finished then next
        else
          next.(locks := s.locks.Share(RecoveryTxn, loc.block).Upgrade(RecoveryTxn, loc.block))
          .Modify(RecoveryTxn, loc, was, -1)
  }

  /** A run: every step is enabled where it is taken. */
  ghost predicate ValidRun(s: State, steps: seq<Step>)
    decreases |steps|
  {
    steps == [] || (Enabled(s, steps[0]) && ValidRun(Apply(s, steps[0]), steps[1..]))
  }

  ghost function RunFrom(s: State, steps: seq<Step>): State
    requires ValidRun(s, steps)
    decreases |steps|
  {
    if steps == [] then s else RunFrom(Apply(s, steps[0]), steps[1..])
  }

  ghost predicate Reachable(s: State) {
    exists steps :: ValidRun(NewDatabase, steps) && RunFrom(NewDatabase, steps) == s
  }

  // ---- What a whole recovery would do to one location ----

  /** The old value that DoRecover writes last to `loc`, scanning the first `n` records backwards. */
  function Oldest(log: seq<Record>, n: nat, finished: set<TxnId>, loc: Loc): Option<Value>
    requires n <= |log|
  {
    if n == 0 then None
    else
      match log[n - 1]
      case Checkpoint => None
      case Commit(t) => Oldest(log, n - 1, finished + {t}, loc)
      case Rollback(t) => Oldest(log, n - 1, finished + {t}, loc)
      case Start(_) => Oldest(log, n - 1, finished, loc)
      case SetVal(t, l, was) =>
        var earlier := Oldest(log, n - 1, finished, loc);
        if earlier.Some? then earlier
        else if l == loc && t !in finished then Some(was)
        else None
  }

  /** The value of `loc` after a recovery from this disk and this log. */
  function Recovered(disk: Disk, log: seq<Record>, loc: Loc): Value {
    match Oldest(log, |log|, {}, loc)
    case Some(v) => v
    case None => DiskGet(disk, loc)
  }
}
