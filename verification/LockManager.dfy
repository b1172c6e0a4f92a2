/** The shared lock table, and one concurrency manager for each transaction. */
module LockManager {
  import opened Storage
  import opened Locks

  /** `held` gathers what the concurrency managers hold, to say what the counts mean. */
  class LockTable {
    var locks: map<BlockId, int>
    ghost var held: map<TxnId, map<BlockId, Kind>>

    ghost function State(): LockState
      reads this
    {
      LockState(locks, held)
    }

    ghost predicate Valid()
      reads this
    {
      State().Meaning()
    }

    constructor ()
      ensures Valid() && State() == NoLocks
    {
      locks, held := map[], map[];
      new;
      assert forall b :: NoLocks.Holders(b) == {} && NoLocks.BlockMeaning(b);
    }

    function GetLockVal(b: BlockId): int
      reads this
    {
      if b in locks then locks[b] else 0
    }

    /** False is the LockAbortException after a wait that was too long. */
    method SharedLock(b: BlockId, ghost t: TxnId) returns (ok: bool)
      requires Valid() && !State().Holds(t, b)
      modifies this
      ensures Valid() && ok == old(State().CanShare(b))
      ensures State() == if ok then old(State()).Share(t, b) else old(State())
    {
      ok := GetLockVal(b) >= 0;
      if ok {
        ShareKeepsMeaning(State(), t, b);
        held := State().Note(t, b, S);
        locks := locks[b := GetLockVal(b) + 1];
      }
    }

    method ExclusiveLock(b: BlockId, ghost t: TxnId) returns (ok: bool)
      requires Valid() && State().Holds(t, b) && !State().HoldsX(t, b)
      modifies this
      ensures Valid() && ok == old(State().CanUpgrade(b))
      ensures State() == if ok then old(State()).Upgrade(t, b) else old(State())
      ensures ok <==> old(State().Holders(b)) == {t}
    {
      ok := GetLockVal(b) <= 1;
      AloneIffCount(State(), t, b);
      if ok {
        UpgradeKeepsMeaning(State(), t, b);
        held := State().Note(t, b, X);
        locks := locks[b := -1];
      }
    }

    method Unlock(b: BlockId, ghost t: TxnId)
      requires Valid() && State().Holds(t, b)
      modifies this
      ensures Valid() && State() == old(State()).Unlock(t, b)
    {
      UnlockKeepsMeaning(State(), t, b);
      var val := GetLockVal(b);
      held := held[t := State().Held(t) - {b}];
      if val > 1 {
        locks := locks[b := val - 1];
      } else {
        locks := locks - {b};
      }
    }
  }

  /** For a transaction with a shared lock, a count of at most 1 means that it is alone. */
  lemma AloneIffCount(ls: LockState, t: TxnId, b: BlockId)
    requires ls.Meaning() && ls.Holds(t, b)
    ensures ls.Count(b) <= 1 <==> ls.Holders(b) == {t}
  {
    assert ls.BlockMeaning(b);
    if ls.CanUpgrade(b) {
      UpgradeKeepsMeaning(ls, t, b);
    }
    if ls.Holders(b) == {t} && ls.Count(b) >= 0 {
      assert ls.Count(b) == |{t}|;
    }
  }

  lemma OnlyHolder(ls: LockState, before: LockState, t: TxnId, b: BlockId)
    requires ls.Holds(t, b)
    requires forall u :: u != t ==> ls.Holds(u, b) == before.Holds(u, b)
    ensures ls.Holders(b) == {t} <==> forall u :: u != t ==> !before.Holds(u, b)
  {
    if forall u :: u != t ==> !before.Holds(u, b) {
      assert forall u :: u in ls.Holders(b) <==> u == t;
    } else {
      var u :| u != t && before.Holds(u, b);
      assert u in ls.Holders(b);
    }
  }

  class ConcurrencyManager {
    const lockTable: LockTable
    ghost const id: TxnId
    var locks: map<BlockId, Kind>

    ghost predicate Valid()
      reads this, lockTable
    {
      lockTable.Valid() && lockTable.State().Held(id) == locks
    }

    constructor (lockTable: LockTable, ghost id: TxnId)
      requires lockTable.Valid() && lockTable.State().Held(id) == map[]
      ensures this.lockTable == lockTable && this.id == id && Valid() && locks == map[]
    {
      this.lockTable, this.id := lockTable, id;
      locks := map[];
    }

    ghost predicate OthersKept(before: LockState)
      reads lockTable
    {
      forall u :: u != id ==> lockTable.State().Held(u) == before.Held(u)
    }

    method SharedLock(b: BlockId) returns (ok: bool)
      requires Valid()
      modifies this, lockTable
      ensures Valid() && OthersKept(old(lockTable.State()))
      ensures locks == if ok && b !in old(locks) then old(locks)[b := S] else old(locks)
      ensures ok <==> b in old(locks) || forall u :: !old(lockTable.State()).HoldsX(u, b)
    {
      ghost var before := lockTable.State();
      FreeIffCount(before, b);
      ok := true;
      if b !in locks {
        ok := lockTable.SharedLock(b, id);
        assert ok == before.CanShare(b);
        assert ok <==> forall u :: !before.HoldsX(u, b);
        if ok {
          locks := locks[b := S];
        }
      }
    }

    method ExclusiveLock(b: BlockId) returns (ok: bool)
      requires Valid()
      modifies this, lockTable
      ensures Valid() && OthersKept(old(lockTable.State()))
      ensures ok ==> locks == old(locks)[b := X] && lockTable.State().Holders(b) == {id}
      ensures !ok ==> locks == if b in old(locks) || exists u :: old(lockTable.State()).HoldsX(u, b) then old(locks)
                               else old(locks)[b := S]
      ensures ok <==> forall u :: u != id ==> !old(lockTable.State()).Holds(u, b)
    {
      ghost var before := lockTable.State();
      if b in locks && locks[b] == X {
        assert forall u :: u != id ==> !before.Holds(u, b) by {
          forall u | before.Holds(u, b) ensures u == id {
            ExclusiveAlone(before, id, u, b);
          }
        }
        assert before.Holds(id, b);
        assert locks == locks[b := X];
        return true;
      }
      ok := SharedLock(b);
      if !ok {
        ghost var u :| before.HoldsX(u, b);
        assert u != id && before.Holds(u, b);
      } else {
        ghost var shared := lockTable.State();
        assert forall u :: u != id ==> shared.Holds(u, b) == before.Holds(u, b);
        OnlyHolder(shared, before, id, b);
        ok := lockTable.ExclusiveLock(b, id);
        if ok {
          locks := locks[b := X];
          assert lockTable.State().Holds(id, b);
        }
      }
    }

    /** Unlock every block of the map, then empty it. */
    method Release()
      requires Valid()
      modifies this, lockTable
      ensures Valid() && locks == map[] && OthersKept(old(lockTable.State()))
      ensures forall b :: !lockTable.State().Holds(id, b)
    {
      var todo := locks.Keys;
      while todo != {}
        invariant lockTable.Valid() && lockTable.State().Held(id).Keys == todo <= locks.Keys
        invariant OthersKept(old(lockTable.State()))
      {
        var b :| b in todo;
        todo := todo - {b};
        lockTable.Unlock(b, id);
      }
      locks := map[];
    }
  }

  /** A block can be shared exactly when nobody has it exclusively. */
  lemma FreeIffCount(ls: LockState, b: BlockId)
    requires ls.Meaning()
    ensures ls.Count(b) >= 0 <==> forall u :: !ls.HoldsX(u, b)
  {
    assert ls.BlockMeaning(b);
    forall u | ls.HoldsX(u, b) ensures ls.Count(b) < 0 {
      assert u in ls.Holders(b);
    }
  }
}
