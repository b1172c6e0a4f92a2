/** The backward scans of rollback and recovery over the bytes of the log. */
module RecoveryScans {
  import opened Storage
  import opened Locks
  import opened Engine
  import opened EngineInvariant
  import opened EngineRecovery
  import opened CrashSafety
  import opened LogBytes
  import opened LogRecords

  /** An old value that is put back. */
  datatype Change = Change(loc: Loc, was: Value)

  /** What DoRollback puts back, newest record first. */
  function Undos(log: seq<Record>, n: nat, t: TxnId): seq<Change>
    requires n <= |log|
  {
    if n == 0 || log[n - 1] == Start(t) then []
    else (if Sets(log[n - 1], t) then [Change(log[n - 1].loc, log[n - 1].was)] else []) + Undos(log, n - 1, t)
  }

  /** What DoRecover puts back, newest record first. */
  function Repairs(log: seq<Record>, n: nat, finished: set<TxnId>): seq<Change>
    requires n <= |log|
  {
    if n == 0 || log[n - 1].Checkpoint? then []
    else
      var r := log[n - 1];
      (if r.SetVal? && r.t !in finished then [Change(r.loc, r.was)] else []) + Repairs(log, n - 1, Seen(r, finished))
  }

  function PutBack(disk: Disk, c: Change): Disk {
    disk[c.loc.block := ReadBlock(disk, c.loc.block)[c.loc.field := c.was]]
  }

  /** The changes made one after another. */
  function Patch(disk: Disk, changes: seq<Change>): Disk
    decreases |changes|
  {
    if changes == [] then disk else Patch(PutBack(disk, changes[0]), changes[1..])
  }

  lemma PutBackGives(disk: Disk, c: Change, loc: Loc)
    ensures DiskGet(PutBack(disk, c), loc) == if loc == c.loc then c.was else DiskGet(disk, loc)
  {
  }

  lemma PatchOne(disk: Disk, c: Change, rest: seq<Change>)
    ensures Patch(disk, [c] + rest) == Patch(PutBack(disk, c), rest)
    ensures Patch(disk, [] + rest) == Patch(disk, rest)
  {
    assert ([c] + rest)[1..] == rest && [] + rest == rest;
  }

  // ---- what the scans leave ----

  /** A location ends with its oldest unfinished value. */
  lemma {:induction false} RepairsGive(disk: Disk, log: seq<Record>, n: nat, finished: set<TxnId>, loc: Loc)
    requires n <= |log|
    ensures DiskGet(Patch(disk, Repairs(log, n, finished)), loc) ==
            match Oldest(log, n, finished, loc)
            case Some(v) => v
            case None => DiskGet(disk, loc)
    decreases n
  {
    if n > 0 && !log[n - 1].Checkpoint? {
      var r := log[n - 1];
      var rest := Repairs(log, n - 1, Seen(r, finished));
      if r.SetVal? && r.t !in finished {
        var c := Change(r.loc, r.was);
        PatchOne(disk, c, rest);
        PutBackGives(disk, c, loc);
        RepairsGive(PutBack(disk, c), log, n - 1, finished, loc);
      } else {
        assert [] + rest == rest;
        RepairsGive(disk, log, n - 1, Seen(r, finished), loc);
      }
    }
  }

  /** Recovery from the durable records gives the committed database. */
  lemma {:induction false} RepairsCommit(s: State, loc: Loc)
    requires Reachable(s)
    ensures s.durable <= |s.log|
    ensures DiskGet(Patch(s.disk, Repairs(s.log[..s.durable], s.durable, {})), loc) == CommittedValue(s, loc)
  {
    CrashAnywhere(s, loc);
    RepairsGive(s.disk, s.log[..s.durable], s.durable, {}, loc);
  }

  /** A location ends with the value from before the transaction's first write to it. */
  lemma {:induction false} UndosGive(s: State, t: TxnId, disk: Disk, n: nat, loc: Loc)
    requires Reachable(s) && s.IsIn(t, Active) && s.txns[t].start < n <= |s.log|
    ensures var first := s.txns[t].first;
            DiskGet(Patch(disk, Undos(s.log, n, t)), loc) ==
            if loc in first && first[loc] < n then CommittedValue(s, loc) else DiskGet(disk, loc)
    decreases n
  {
    var x, r := s.txns[t], s.log[n - 1];
    StartOf(s, t);
    if loc in x.first {
      FirstWas(s, t, loc);
    }
    hide Reachable, CommittedValue;
    if n - 1 > x.start {
      var rest := Undos(s.log, n - 1, t);
      if Sets(r, t) {
        var c := Change(r.loc, r.was);
        FirstIsEarliest(s, t, n - 1);
        PatchOne(disk, c, rest);
        PutBackGives(disk, c, loc);
        UndosGive(s, t, PutBack(disk, c), n - 1, loc);
      } else {
        assert [] + rest == rest;
        UndosGive(s, t, disk, n - 1, loc);
      }
    }
  }

  lemma {:induction false} StartOf(s: State, t: TxnId)
    requires Reachable(s) && s.IsIn(t, Active)
    ensures var start := s.txns[t].start;
            start < |s.log| && s.log[start] == Start(t) && forall i :: start < i < |s.log| ==> s.log[i] != Start(t)
  {
    ReachableOk(s);
    assert TxnOk(s, t);
  }

  lemma {:induction false} FirstWas(s: State, t: TxnId, loc: Loc)
    requires Reachable(s) && s.IsIn(t, Active) && loc in s.txns[t].first
    ensures var i := s.txns[t].first[loc];
            s.txns[t].start < i < |s.log| && Sets(s.log[i], t) && s.log[i].loc == loc &&
            s.log[i].was == CommittedValue(s, loc)
  {
    ReachableOk(s);
    assert TxnOk(s, t) && FirstOk(s, t, loc);
  }

  /** Rollback gives each location that the transaction logged its committed value, and touches no other. */
  lemma {:induction false} UndosCommit(s: State, t: TxnId, disk: Disk, loc: Loc)
    requires Reachable(s) && s.IsIn(t, Active)
    ensures DiskGet(Patch(disk, Undos(s.log, |s.log|, t)), loc) ==
            if loc in s.txns[t].first then CommittedValue(s, loc) else DiskGet(disk, loc)
  {
    StartOf(s, t);
    UndosGive(s, t, disk, |s.log|, loc);
    if loc in s.txns[t].first {
      FirstWas(s, t, loc);
    }
  }

  // ---- the loops over the bytes ----

  /** The first `n` records are those that the iterator has not yet returned. */
  ghost predicate AtRecord(it: LogIterator, log: seq<Record>, n: nat)
    reads it, it.file
  {
    it.Valid() && n <= |log| && StandsFor(it.Rest(), log[..n])
  }

  method MoreRecords(it: LogIterator, ghost log: seq<Record>, ghost n: nat) returns (more: bool)
    requires AtRecord(it, log, n)
    ensures more == (n > 0)
  {
    more := it.HasNext();
  }

  method NextRecord(it: LogIterator, ghost log: seq<Record>, ghost n: nat) returns (r: Record)
    requires AtRecord(it, log, n) && n > 0
    modifies it
    ensures AtRecord(it, log, n - 1) && r == log[n - 1]
  {
    var bytes := it.Next();
    assert old(it.Rest())[n - 1] == bytes && log[..n][n - 1] == log[n - 1];
    r := CreateLogRecord(bytes).value;
    forall i | 0 <= i < n - 1 ensures CreateLogRecord(it.Rest()[i]) == Some(log[..n - 1][i]) {
      assert it.Rest()[i] == old(it.Rest())[i] && log[..n][i] == log[i];
    }
  }

  /** In the middle of a rollback's scan: the first `n` records are still to come. */
  ghost predicate UndosLeft(log: seq<Record>, n: nat, t: TxnId, seen: seq<Change>) {
    n <= |log| && seen + Undos(log, n, t) == Undos(log, |log|, t)
  }

  lemma {:induction false} UndoStep(log: seq<Record>, n: nat, t: TxnId, seen: seq<Change>, seen': seq<Change>)
    requires UndosLeft(log, n, t, seen) && n > 0 && log[n - 1] != Start(t)
    requires seen' == if Sets(log[n - 1], t) then seen + [Change(log[n - 1].loc, log[n - 1].was)] else seen
    ensures UndosLeft(log, n - 1, t, seen')
  {
    var r := log[n - 1];
    if Sets(r, t) {
      Collected(seen, [Change(r.loc, r.was)], Undos(log, n - 1, t));
    }
    assert [] + Undos(log, n - 1, t) == Undos(log, n - 1, t);
  }

  lemma {:induction false} UndoEnd(log: seq<Record>, n: nat, t: TxnId, seen: seq<Change>)
    requires n <= |log| && UndosLeft(log, n, t, seen) && (n > 0 ==> log[n - 1] == Start(t))
    ensures seen == Undos(log, |log|, t)
  {
    Collected(seen, seen, seen);
  }

  /** In the middle of recovery's scan: the first `n` records are still to come. */
  ghost predicate RepairsLeft(log: seq<Record>, n: nat, finished: set<TxnId>, seen: seq<Change>) {
    n <= |log| && seen + Repairs(log, n, finished) == Repairs(log, |log|, {})
  }

  lemma {:induction false} RepairStep(log: seq<Record>, n: nat, finished: set<TxnId>, seen: seq<Change>,
                                      finished': set<TxnId>, seen': seq<Change>)
    requires RepairsLeft(log, n, finished, seen) && n > 0 && !log[n - 1].Checkpoint?
    requires var r := log[n - 1];
             finished' == (if r.Commit? || r.Rollback? then finished + {r.t} else finished) &&
             seen' == if r.SetVal? && r.t !in finished then seen + [Change(r.loc, r.was)] else seen
    ensures RepairsLeft(log, n - 1, finished', seen')
  {
    var r := log[n - 1];
    if r.SetVal? {
      Collected(seen, [Change(r.loc, r.was)], Repairs(log, n - 1, finished'));
    }
    assert [] + Repairs(log, n - 1, finished') == Repairs(log, n - 1, finished');
  }

  lemma Collected<T>(a: seq<T>, b: seq<T>, c: seq<T>)
    ensures a + (b + c) == (a + b) + c
    ensures a + [] == a
  {
  }

  /** DoRollback, up to the changes themselves. */
  method ScanForRollback(manager: LogManager, t: TxnId, ghost log: seq<Record>) returns (changes: seq<Change>)
    requires manager.Valid() && StandsFor(manager.Log(), log)
    modifies manager`savedLsn, manager.file
    ensures manager.Valid() && manager.Log() == old(manager.Log()) && changes == Undos(log, |log|, t)
  {
    var it := manager.Iterator();
    changes := CollectUndos(it, t, log);
  }

  method CollectUndos(it: LogIterator, t: TxnId, ghost log: seq<Record>) returns (changes: seq<Change>)
    requires it.Valid() && StandsFor(it.Rest(), log)
    modifies it
    ensures changes == Undos(log, |log|, t)
  {
    assert log[..|log|] == log;
    changes := [];
    ghost var n: nat := |log|;
    assert AtRecord(it, log, n) && UndosLeft(log, n, t, changes);
    hide *;
    var more := MoreRecords(it, log, n);
    while more
      invariant more == (n > 0) && AtRecord(it, log, n) && UndosLeft(log, n, t, changes)
      decreases n
    {
      ghost var seen := changes;
      var record := NextRecord(it, log, n);
      if record == Start(t) {
        break;
      }
      if Sets(record, t) {
        changes := changes + [Change(record.loc, record.was)];
      }
      UndoStep(log, n, t, seen, changes);
      n := n - 1;
      more := MoreRecords(it, log, n);
    }
    UndoEnd(log, n, t, changes);
  }

  /** DoRecover, up to the changes themselves. */
  method ScanForRecovery(manager: LogManager, ghost log: seq<Record>) returns (changes: seq<Change>)
    requires manager.Valid() && StandsFor(manager.Log(), log)
    modifies manager`savedLsn, manager.file
    ensures manager.Valid() && manager.Log() == old(manager.Log()) && changes == Repairs(log, |log|, {})
  {
    var it := manager.Iterator();
    changes := CollectRepairs(it, log);
  }

  method CollectRepairs(it: LogIterator, ghost log: seq<Record>) returns (changes: seq<Change>)
    requires it.Valid() && StandsFor(it.Rest(), log)
    modifies it
    ensures changes == Repairs(log, |log|, {})
  {
    assert log[..|log|] == log;
    changes := [];
    var finished: set<TxnId> := {};
    ghost var n: nat := |log|;
    assert AtRecord(it, log, n) && RepairsLeft(log, n, finished, changes);
    hide *;
    var more := MoreRecords(it, log, n);
    while more
      invariant more == (n > 0) && AtRecord(it, log, n) && RepairsLeft(log, n, finished, changes)
      decreases n
    {
      ghost var was, seen := finished, changes;
      var record := NextRecord(it, log, n);
      if record.Checkpoint? {
        break;
      }
      if record.Commit? || record.Rollback? {
        finished := finished + {record.t};
      } else if record.SetVal? && record.t !in finished {
        changes := changes + [Change(record.loc, record.was)];
      }
      RepairStep(log, n, was, seen, finished, changes);
      n := n - 1;
      more := MoreRecords(it, log, n);
    }
    RepairEnd(log, n, finished, changes);
  }

  lemma {:induction false} RepairEnd(log: seq<Record>, n: nat, finished: set<TxnId>, seen: seq<Change>)
    requires n <= |log| && RepairsLeft(log, n, finished, seen) && (n > 0 ==> log[n - 1].Checkpoint?)
    ensures seen == Repairs(log, |log|, {})
  {
    Collected(seen, seen, seen);
  }

  /** After a crash: what the restarted server reads from the log file repairs its disk. */
  method RecoverFromBytes(manager: LogManager, ghost crashed: State) returns (changes: seq<Change>)
    requires Reachable(crashed) && crashed.durable <= |crashed.log|
    requires manager.Valid() && StandsFor(manager.Log(), crashed.log[..crashed.durable])
    modifies manager`savedLsn, manager.file
    ensures manager.Valid() && manager.Log() == old(manager.Log())
    ensures forall loc :: DiskGet(Patch(crashed.disk, changes), loc) == CommittedValue(crashed, loc)
  {
    changes := ScanForRecovery(manager, crashed.log[..crashed.durable]);
    forall loc ensures DiskGet(Patch(crashed.disk, changes), loc) == CommittedValue(crashed, loc) {
      RepairsCommit(crashed, loc);
    }
  }
}
