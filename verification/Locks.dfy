/** The lock table and the transactions' lock maps, as values. */
module Locks {
  import opened Storage

  type TxnId = int

  datatype Kind = S | X

  /** The shared table holds one signed count per block; `held` gathers the lock map of every transaction. */
  datatype LockState = LockState(table: map<BlockId, int>, held: map<TxnId, map<BlockId, Kind>>) {

    function Count(b: BlockId): int {
      if b in table then table[b] else 0
    }

    function Held(t: TxnId): map<BlockId, Kind> {
      if t in held then held[t] else map[]
    }

    predicate Holds(t: TxnId, b: BlockId) {
      b in Held(t)
    }

    predicate HoldsX(t: TxnId, b: BlockId) {
      b in Held(t) && Held(t)[b] == X
    }

    ghost function Holders(b: BlockId): (hs: set<TxnId>)
      ensures forall t :: t in hs <==> Holds(t, b)
    {
      set t | t in held && Holds(t, b)
    }

    // The granting tests of the table. A request that is refused waits and then aborts.

    predicate CanShare(b: BlockId) {
      Count(b) >= 0
    }

    predicate CanUpgrade(b: BlockId) {
      Count(b) <= 1
    }

    function Note(t: TxnId, b: BlockId, k: Kind): map<TxnId, map<BlockId, Kind>> {
      held[t := Held(t)[b := k]]
    }

    /** A shared lock: free when the transaction already has some lock on the block. */
    function Share(t: TxnId, b: BlockId): LockState {
      if Holds(t, b) then this
      else LockState(table[b := Count(b) + 1], Note(t, b, S))
    }

    /** The upgrade of a lock that the transaction already has. */
    function Upgrade(t: TxnId, b: BlockId): LockState {
      if HoldsX(t, b) then this
      else LockState(table[b := -1], Note(t, b, X))
    }

    function UnlockTable(b: BlockId): map<BlockId, int> {
      if Count(b) > 1 then table[b := Count(b) - 1] else table - {b}
    }

    function Unlock(t: TxnId, b: BlockId): LockState {
      LockState(UnlockTable(b), held[t := Held(t) - {b}])
    }

    /** What a count means. */
    ghost predicate BlockMeaning(b: BlockId) {
      var hs := Holders(b);
      if Count(b) < 0 then
        Count(b) == -1 && exists t :: t in hs && hs == {t} && HoldsX(t, b)
      else
        Count(b) == |hs| && forall t :: t in hs ==> !HoldsX(t, b)
    }

    ghost predicate Meaning() {
      forall b: BlockId :: BlockMeaning(b)
    }
  }

  const NoLocks := LockState(map[], map[])

  /** An exclusive lock excludes every other lock on its block. */
  lemma ExclusiveAlone(ls: LockState, t: TxnId, u: TxnId, b: BlockId)
    requires ls.Meaning() && ls.HoldsX(t, b) && ls.Holds(u, b)
    ensures u == t
  {
    assert ls.BlockMeaning(b);
    assert t in ls.Holders(b) && u in ls.Holders(b);
  }

  lemma ShareKeepsMeaning(ls: LockState, t: TxnId, b: BlockId)
    requires ls.Meaning() && (ls.Holds(t, b) || ls.CanShare(b))
    ensures ls.Share(t, b).Meaning()
  {
    if !ls.Holds(t, b) {
      var after := ls.Share(t, b);
      forall c: BlockId
        ensures after.BlockMeaning(c)
      {
        assert ls.BlockMeaning(c);
        if c == b {
          SharedBlock(ls, t, b);
        } else {
          OtherBlock(ls, after, t, c);
        }
      }
    }
  }

  lemma SharedBlock(ls: LockState, t: TxnId, b: BlockId)
    requires ls.BlockMeaning(b) && !ls.Holds(t, b) && ls.CanShare(b)
    ensures ls.Share(t, b).BlockMeaning(b)
  {
    var after := ls.Share(t, b);
    OtherHolders(ls, after, t, b);
    assert after.Holders(b) == ls.Holders(b) + {t};
  }

  /** A change of one transaction's map leaves what the others hold. */
  lemma OtherHolders(ls: LockState, after: LockState, t: TxnId, b: BlockId)
    requires forall u :: u != t ==> after.Held(u) == ls.Held(u)
    ensures forall u :: u != t ==> after.Holds(u, b) == ls.Holds(u, b) && after.HoldsX(u, b) == ls.HoldsX(u, b)
    ensures after.Holders(b) - {t} == ls.Holders(b) - {t}
  {
  }

  lemma OtherBlock(ls: LockState, after: LockState, t: TxnId, c: BlockId)
    requires ls.BlockMeaning(c)
    requires forall u :: u != t ==> after.Held(u) == ls.Held(u)
    requires after.Holds(t, c) == ls.Holds(t, c) && after.HoldsX(t, c) == ls.HoldsX(t, c)
    requires after.Count(c) == ls.Count(c)
    ensures after.BlockMeaning(c)
  {
    OtherHolders(ls, after, t, c);
    assert after.Holders(c) == ls.Holders(c);
    if ls.Count(c) < 0 {
      var w :| w in ls.Holders(c) && ls.Holders(c) == {w} && ls.HoldsX(w, c);
      assert after.HoldsX(w, c);
    } else {
      forall u | u in after.Holders(c) ensures !after.HoldsX(u, c) {
        assert !ls.HoldsX(u, c);
      }
    }
  }

  /** The upgrade's test `count <= 1` is enough, because the caller already has a lock. */
  lemma UpgradeKeepsMeaning(ls: LockState, t: TxnId, b: BlockId)
    requires ls.Meaning() && ls.Holds(t, b) && ls.CanUpgrade(b)
    ensures ls.Upgrade(t, b).Meaning()
    ensures ls.Holders(b) == {t}
  {
    assert ls.BlockMeaning(b);
    assert t in ls.Holders(b);
    var hs := ls.Holders(b);
    if ls.Count(b) >= 0 {
      assert |hs - {t}| == |hs| - 1;
      assert hs - {t} == {};
      assert hs == {t};
    }
    if !ls.HoldsX(t, b) {
      var after := ls.Upgrade(t, b);
      forall c: BlockId
        ensures after.BlockMeaning(c)
      {
        assert ls.BlockMeaning(c);
        if c == b {
          assert after.Holders(b) == ls.Holders(b);
          assert after.HoldsX(t, b);
        } else {
          OtherBlock(ls, after, t, c);
        }
      }
    }
  }

  lemma UnlockKeepsMeaning(ls: LockState, t: TxnId, b: BlockId)
    requires ls.Meaning() && ls.Holds(t, b)
    ensures ls.Unlock(t, b).Meaning()
  {
    var after := ls.Unlock(t, b);
    forall c: BlockId
      ensures after.BlockMeaning(c)
    {
      assert ls.BlockMeaning(c);
      if c == b {
        UnlockedBlock(ls, t, b);
      } else {
        OtherBlock(ls, after, t, c);
      }
    }
  }

  lemma UnlockedBlock(ls: LockState, t: TxnId, b: BlockId)
    requires ls.BlockMeaning(b) && ls.Holds(t, b)
    ensures ls.Unlock(t, b).BlockMeaning(b)
  {
    var after := ls.Unlock(t, b);
    var hs := ls.Holders(b);
    OtherHolders(ls, after, t, b);
    assert t in hs && !after.Holds(t, b);
    assert after.Holders(b) == hs - {t};
    assert |hs - {t}| == |hs| - 1;
    if ls.Count(b) < 0 {
      assert after.Holders(b) == {};
    }
  }
}
