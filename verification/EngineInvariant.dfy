/** What holds in every reachable state of the engine. */
module EngineInvariant {
  import opened Storage
  import opened Locks
  import opened History
  import opened Engine

  function MemVal(s: State, loc: Loc): Value {
    if loc.block in s.cache then Get(s.cache[loc.block].page, loc.field) else DiskGet(s.disk, loc)
  }

  function DiskVal(s: State, loc: Loc): Value {
    DiskGet(s.disk, loc)
  }

  function Com(s: State, loc: Loc): Value {
    Look(s.committed, loc)
  }

  /** Memory, disk and the committed database agree on `loc`. */
  predicate Settled(s: State, loc: Loc) {
    MemVal(s, loc) == Com(s, loc) && DiskVal(s, loc) == Com(s, loc)
  }

  /** A transaction whose last record is not yet on disk. */
  predicate Live(s: State, t: TxnId) {
    t in s.txns && !(s.txns[t].phase.Ending? && s.txns[t].phase.at < s.durable)
  }

  /** `t` still answers for block `b`: it may have uncommitted changes there. */
  predicate Guards(s: State, t: TxnId, b: BlockId) {
    Live(s, t) && s.locks.HoldsX(t, b)
  }

  // ---- The parts of the invariant ----

  ghost predicate Shape(s: State) {
    && s.base <= s.durable <= |s.log| == |s.origin|
    && s.ckpt <= s.durable
    && (s.ckpt == 0 || s.log[s.ckpt - 1].Checkpoint?)
    && s.locks.Meaning()
    && Serial(map[], s.done)
    && ReplayAll(map[], s.done) == s.committed
  }

  ghost predicate NoCheckpoint(s: State) {
    forall i :: s.ckpt <= i < |s.log| ==> !s.log[i].Checkpoint?
  }

  ghost predicate FrameOk(s: State, b: BlockId)
    requires b in s.cache
  {
    && s.cache[b].lsn < s.NextLsn()
    && (s.cache[b].owner == -1 ==> SamePage(s.cache[b].page, ReadBlock(s.disk, b)))
  }

  ghost predicate FramesOk(s: State) {
    forall b :: b in s.cache ==> FrameOk(s, b)
  }

  /** Only a transaction that guards the block and has not begun to end has a dirty page. */
  ghost predicate OwnersGuard(s: State) {
    forall b :: b in s.cache && s.cache[b].owner != -1 ==>
      Guards(s, s.cache[b].owner, b) && !s.txns[s.cache[b].owner].phase.Ending?
  }

  /** Every change since the checkpoint is either ended on disk or known to its running transaction. */
  ghost predicate EndedBy(s: State, t: TxnId, i: int) {
    exists k :: 0 <= k < |s.log| && i < k < s.durable && Ends(s.log[k], t)
  }

  ghost predicate Accounted(s: State, i: nat)
    requires i < |s.log|
  {
    s.log[i].SetVal? ==>
      EndedBy(s, s.log[i].t, i) ||
      (s.log[i].t in s.txns && s.log[i].loc in s.txns[s.log[i].t].first &&
       s.txns[s.log[i].t].first[s.log[i].loc] <= i)
  }

  function Id(r: Record): TxnId {
    if r.Checkpoint? then -1 else r.t
  }

  ghost predicate LogOk(s: State) {
    && (forall i :: s.ckpt <= i < |s.log| ==> Accounted(s, i))
    && (forall i :: s.ckpt <= i < |s.log| ==> Id(s.log[i]) <= s.lastId)
    && (forall i :: s.durable <= i < |s.log| && (s.log[i].Commit? || s.log[i].Rollback?) ==> s.log[i].t in s.txns)
    && (forall i :: s.ckpt <= i < |s.log| && i < |s.origin| && !s.log[i].Start? ==> s.origin[i] == s.epoch)
  }

  ghost predicate FirstOk(s: State, t: TxnId, loc: Loc)
    requires t in s.txns && loc in s.txns[t].first
  {
    var i := s.txns[t].first[loc];
    && s.ckpt <= i < |s.log| && s.txns[t].start < i
    && s.log[i].SetVal? && s.log[i].t == t && s.log[i].loc == loc
    && (Live(s, t) ==> s.log[i].was == Com(s, loc) && s.locks.HoldsX(t, loc.block))
  }

  ghost predicate PhaseOk(s: State, t: TxnId)
    requires t in s.txns
  {
    var x := s.txns[t];
    match x.phase
    case Active => true
    case Logged(loc, _, lsn) =>
      loc in x.first && lsn < s.NextLsn() && forall l :: l in x.first ==> x.first[l] < s.base + lsn
    case Undoing(pos) =>
      x.start < pos <= |s.log| && forall l :: l in x.first ==> x.first[l] < s.durable
    case Undone => forall l :: l in x.first ==> x.first[l] < s.durable
    case Ending(at, commit) =>
      s.ckpt <= at < |s.log| && s.log[at] == if commit then Commit(t) else Rollback(t)
  }

  ghost predicate TxnOk(s: State, t: TxnId)
    requires t in s.txns
  {
    var x := s.txns[t];
    && 1 <= t <= s.lastId
    && x.start < |s.log| && s.log[x.start] == Start(t)
    && (s.ckpt <= x.start || x.start + 2 == s.ckpt)
    && (forall i :: x.start < i < |s.log| ==> s.log[i] != Start(t))
    && (forall i :: s.ckpt <= i < |s.log| && Ends(s.log[i], t) ==> x.phase.Ending? && x.phase.at == i)
    && (forall i :: s.ckpt <= i < |s.log| && Sets(s.log[i], t) && x.phase.Ending? ==> i < x.phase.at)
    && (forall loc :: loc in x.first ==> FirstOk(s, t, loc))
    && PhaseOk(s, t)
    && (Live(s, t) ==>
          (forall loc :: Touches(x.ops, loc) ==> s.locks.Holds(t, loc.block)) &&
          (forall loc :: Writes(x.ops, loc) ==> loc in x.first))
    && (Live(s, t) && (x.phase.Active? || x.phase.Logged? || (x.phase.Ending? && x.phase.commit)) ==>
          Consistent(s.committed, x.ops))
  }

  ghost predicate TxnsOk(s: State) {
    && (forall t :: t in s.txns ==> TxnOk(s, t))
    && (forall t, b :: s.locks.Holds(t, b) ==> t in s.txns)
  }

  /** A location that `t` has logged: what its values on disk and in memory are. */
  ghost predicate OwnVal(s: State, t: TxnId, loc: Loc)
    requires t in s.txns && loc in s.txns[t].first
  {
    var x := s.txns[t];
    var i := x.first[loc];
    && (i >= s.durable ==> DiskVal(s, loc) == Com(s, loc))
    && (loc.block in s.cache && i >= s.durable && i >= s.base + s.cache[loc.block].lsn
        ==> MemVal(s, loc) == Com(s, loc))
    && match x.phase
       case Active => MemVal(s, loc) == Look(ApplyOps(s.committed, x.ops), loc)
       case Logged(_, _, _) => MemVal(s, loc) == Look(ApplyOps(s.committed, x.ops), loc)
       case Undoing(pos) => i >= pos ==> MemVal(s, loc) == Com(s, loc)
       case Undone => MemVal(s, loc) == Com(s, loc)
       case Ending(_, commit) =>
         MemVal(s, loc) == DiskVal(s, loc) &&
         MemVal(s, loc) == if commit then Look(ApplyOps(s.committed, x.ops), loc) else Com(s, loc)
  }

  /** Either nobody answers for the location and it is settled, or its one guard explains it. */
  ghost predicate LocOk(s: State, loc: Loc) {
    && ((forall t :: t in s.txns ==> !Guards(s, t, loc.block)) ==> Settled(s, loc))
    && (forall t :: t in s.txns && Guards(s, t, loc.block) ==>
          if loc in s.txns[t].first then OwnVal(s, t, loc) else Settled(s, loc))
  }

  ghost predicate LocsOk(s: State) {
    forall loc :: LocOk(s, loc)
  }

  ghost predicate RunningOk(s: State) {
    NoCheckpoint(s) && OwnersGuard(s) && LogOk(s) && TxnsOk(s) && LocsOk(s)
  }

  // ---- Outside normal running ----

  /** What recovery would leave at `loc` is the committed value. */
  ghost predicate Restores(s: State, n: nat, loc: Loc)
    requires n <= |s.log|
  {
    match Oldest(s.log, n, {}, loc)
    case Some(v) => v == Com(s, loc)
    case None => DiskVal(s, loc) == Com(s, loc)
  }

  ghost predicate Recoverable(s: State)
    requires s.durable <= |s.log|
  {
    forall loc :: Restores(s, s.durable, loc)
  }

  /** Since the last checkpoint all records but STARTs come from one process. */
  ghost predicate OneOrigin(s: State) {
    |s.log| == |s.origin| &&
    forall i, j :: s.ckpt <= i < |s.log| && s.ckpt <= j < |s.log| &&
                   !s.log[i].Start? && !s.log[j].Start? && !s.log[i].Checkpoint? && !s.log[j].Checkpoint?
                   ==> s.origin[i] == s.origin[j]
  }

  ghost predicate OnlyRecovery(s: State) {
    && s.txns.Keys == {RecoveryTxn} && s.lastId == RecoveryTxn
    && (forall t, b :: s.locks.Holds(t, b) ==> t == RecoveryTxn)
    && (forall b :: b in s.cache && s.cache[b].owner != -1 ==> s.cache[b].owner == RecoveryTxn)
    && (var x := s.txns[RecoveryTxn];
        x.phase == Active && x.ops == [] && x.first == map[] &&
        x.start < |s.log| && s.log[x.start] == Start(RecoveryTxn) &&
        forall i :: x.start < i < |s.log| ==> s.log[i].Checkpoint?)
  }

  /** The rest of the backward scan will put the committed value everywhere. */
  ghost predicate ScanLocOk(s: State, pos: nat, finished: set<TxnId>, loc: Loc)
    requires pos <= |s.log| && s.durable <= |s.log|
  {
    match Oldest(s.log, pos, finished, loc)
    case Some(v) => v == Com(s, loc) && Oldest(s.log, s.durable, {}, loc).Some?
    case None => MemVal(s, loc) == Com(s, loc)
  }

  ghost predicate ScanOk(s: State, pos: nat, finished: set<TxnId>)
    requires pos <= |s.log| && s.durable <= |s.log|
  {
    forall loc :: ScanLocOk(s, pos, finished, loc)
  }

  ghost predicate ModeOk(s: State)
    requires Shape(s)
  {
    match s.mode
    case Running => RunningOk(s)
    case Scanning(pos, finished) =>
      Recoverable(s) && OneOrigin(s) && NoCheckpoint(s) && OnlyRecovery(s) &&
      s.txns[RecoveryTxn].start + 1 == |s.log| && pos <= |s.log| && ScanOk(s, pos, finished)
      && (forall i :: s.durable <= i < |s.log| ==> s.log[i].Start?)
    case Scanned =>
      Recoverable(s) && OneOrigin(s) && NoCheckpoint(s) && OnlyRecovery(s) &&
      s.txns[RecoveryTxn].start + 1 == |s.log| == s.durable && forall loc :: MemVal(s, loc) == Com(s, loc)
    case Checkpointing(at) =>
      Recoverable(s) && OneOrigin(s) && OnlyRecovery(s) &&
      s.txns[RecoveryTxn].start + 1 == at && at + 1 == |s.log| && s.log[at].Checkpoint? &&
      at <= s.durable && s.ckpt == (if at < s.durable then at + 1 else s.ckpt) && 
      (forall i :: s.ckpt <= i < at ==> !s.log[i].Checkpoint?) &&
      (forall b :: b in s.cache ==> s.cache[b].owner == -1) &&
      forall loc :: Settled(s, loc)
    case Down =>
      Recoverable(s) && OneOrigin(s) && NoCheckpoint(s) &&
      s.durable == |s.log| && s.cache == map[] && s.txns == map[] && s.locks == NoLocks
  }

  /** The invariant in normal running. */
  ghost predicate Up(s: State) {
    s.mode.Running? && Shape(s) && FramesOk(s) && RunningOk(s)
  }

  ghost predicate Inv(s: State) {
    Shape(s) && FramesOk(s) && ModeOk(s)
  }
}
