/**
 * The log as bytes. Records are packed from the right end of a block towards its first word, the
 * boundary, which says where the newest one starts; they are read back newest first.
 */
module LogBytes {
  import opened Bytes

  // ---- One block ----

  /** From `at` to the end of the block there is a chain of blobs. */
  predicate Chain(p: Image, at: nat)
    requires at <= |p|
    decreases |p| - at
  {
    at == |p| || (HasBlob(p, at) && Chain(p, at + INT_SIZE + GetInt(p, at)))
  }

  /** The records from `at` on, oldest first; the one at `at` is the newest. */
  function Records(p: Image, at: nat): seq<Image>
    requires at <= |p| && Chain(p, at)
    decreases |p| - at
  {
    if at == |p| then [] else Records(p, at + INT_SIZE + GetInt(p, at)) + [GetBytes(p, at)]
  }

  predicate BlockOk(p: Image) {
    INT_SIZE <= |p| && INT_SIZE <= GetInt(p, 0) <= |p| && Chain(p, GetInt(p, 0))
  }

  function Boundary(p: Image): (b: nat)
    requires BlockOk(p)
  {
    GetInt(p, 0)
  }

  function BlockRecords(p: Image): seq<Image>
    requires BlockOk(p)
  {
    Records(p, Boundary(p))
  }

  lemma BlobFrame(p: Image, q: Image, at: nat)
    requires |p| == |q| && at <= |p| && p[at..] == q[at..] && HasBlob(p, at)
    ensures HasBlob(q, at) && GetInt(q, at) == GetInt(p, at) && GetBytes(q, at) == GetBytes(p, at)
    ensures p[at + INT_SIZE + GetInt(p, at)..] == q[at + INT_SIZE + GetInt(p, at)..]
  {
    assert p[at..at + INT_SIZE] == p[at..][..INT_SIZE] == q[at..at + INT_SIZE];
    var n := GetInt(p, at);
    var next := at + INT_SIZE + n;
    assert p[next..] == p[at..][INT_SIZE + n..] == q[next..];
    assert p[at + INT_SIZE..next] == p[at..][INT_SIZE..INT_SIZE + n] == q[at + INT_SIZE..next];
  }

  lemma {:induction false} ChainFrame(p: Image, q: Image, at: nat)
    requires |p| == |q| && at <= |p| && p[at..] == q[at..] && Chain(p, at)
    ensures Chain(q, at) && Records(q, at) == Records(p, at)
    decreases |p| - at
  {
    if at < |p| {
      BlobFrame(p, q, at);
      ChainFrame(p, q, at + INT_SIZE + GetInt(p, at));
    }
  }

  /** The page after a record is put below the boundary and the boundary moved to it. */
  function Put(p: Image, rec: Image): (q: Image)
    requires BlockOk(p) && IsInt32(|p|) && Boundary(p) - INT_SIZE - |rec| >= INT_SIZE
    ensures |q| == |p|
  {
    var at := Boundary(p) - INT_SIZE - |rec|;
    SetInt(Splice(p, at, Blob(rec)), 0, at)
  }

  lemma {:induction false} PutBytes(p: Image, rec: Image)
    requires BlockOk(p) && IsInt32(|p|) && Boundary(p) - INT_SIZE - |rec| >= INT_SIZE
    ensures var q, b := Put(p, rec), Boundary(p);
            var at := b - INT_SIZE - |rec|;
            GetInt(q, 0) == at && q[at..b] == Blob(rec) && q[b..] == p[b..]
  {
    var b := Boundary(p);
    var at := b - INT_SIZE - |rec|;
    var q := Put(p, rec);
    var r := Splice(p, at, Blob(rec));
    SpliceParts(p, at, Blob(rec));
    SpliceParts(r, 0, IntBytes(at));
    GetSetInt(r, 0, at);
    assert q[at..] == q[INT_SIZE..][at - INT_SIZE..] == r[INT_SIZE..][at - INT_SIZE..] == r[at..];
    assert q[at..b] == q[at..][..b - at] == r[at..b];
    assert q[b..] == q[at..][b - at..] == r[b..];
  }

  lemma ChainCons(q: Image, at: nat, rec: Image)
    requires at < |q| && HasBlob(q, at) && GetBytes(q, at) == rec && Chain(q, at + INT_SIZE + |rec|)
    ensures Chain(q, at) && Records(q, at) == Records(q, at + INT_SIZE + |rec|) + [rec]
  {
  }

  /** The block `q` has one more record below the boundary `b` that `p` had. */
  lemma {:induction false} PutChain(p: Image, q: Image, b: nat, rec: Image)
    requires |q| == |p| && b <= |p| && Chain(p, b) && INT_SIZE + |rec| <= b && IsInt32(|p|)
    requires q[b - INT_SIZE - |rec|..b] == Blob(rec) && q[b..] == p[b..]
    ensures var at := b - INT_SIZE - |rec|;
            Chain(q, at) && Records(q, at) == Records(p, b) + [rec]
  {
    var at := b - INT_SIZE - |rec|;
    BlobAt(q, at, rec);
    ChainFrame(p, q, b);
    ChainCons(q, at, rec);
  }

  lemma {:induction false} PutAdds(p: Image, rec: Image)
    requires BlockOk(p) && IsInt32(|p|) && Boundary(p) - INT_SIZE - |rec| >= INT_SIZE
    ensures var q := Put(p, rec);
            BlockOk(q) && Boundary(q) == Boundary(p) - INT_SIZE - |rec| && BlockRecords(q) == BlockRecords(p) + [rec]
  {
    hide Chain, Records;
    PutBytes(p, rec);
    PutChain(p, Put(p, rec), Boundary(p), rec);
  }

  function Cleared(p: Image): (q: Image)
    requires INT_SIZE <= |p| && IsInt32(|p|)
    ensures |q| == |p|
  {
    SetInt(p, 0, |p|)
  }

  lemma ClearedEmpty(p: Image)
    requires INT_SIZE <= |p| && IsInt32(|p|)
    ensures BlockOk(Cleared(p)) && Boundary(Cleared(p)) == |p| && BlockRecords(Cleared(p)) == []
  {
    GetSetInt(p, 0, |p|);
  }

  // ---- A file of blocks ----

  predicate FileOk(blocks: seq<Image>, size: nat) {
    forall i :: 0 <= i < |blocks| ==> |blocks[i]| == size && BlockOk(blocks[i])
  }

  /** Every block but the last has a record. */
  predicate Packed(blocks: seq<Image>, size: nat)
    requires FileOk(blocks, size)
  {
    forall i :: 0 <= i < |blocks| - 1 ==> Boundary(blocks[i]) < size
  }

  /** All the records of the file, oldest first. */
  function FileRecords(blocks: seq<Image>, size: nat): seq<Image>
    requires FileOk(blocks, size)
  {
    if blocks == [] then []
    else FileRecords(blocks[..|blocks| - 1], size) + BlockRecords(blocks[|blocks| - 1])
  }

  lemma FileSnoc(blocks: seq<Image>, b: Image, size: nat)
    requires FileOk(blocks, size) && |b| == size && BlockOk(b)
    ensures FileOk(blocks + [b], size)
    ensures FileRecords(blocks + [b], size) == FileRecords(blocks, size) + BlockRecords(b)
  {
    assert (blocks + [b])[..|blocks + [b]| - 1] == blocks;
  }

  /** The log file: whole blocks are read, written and appended in one disk step. */
  class LogFile {
    const size: nat
    var blocks: seq<Image>

    constructor (size: nat)
      ensures this.size == size && blocks == []
    {
      this.size := size;
      blocks := [];
    }
  }

  class LogManager {
    const file: LogFile
    const page: array<byte>
    var current: nat
    var latestLsn: int
    var savedLsn: int

    ghost predicate Valid()
      reads this, file, page
    {
      && page.Length == file.size && IsInt32(file.size) && INT_SIZE <= file.size
      && FileOk(file.blocks, file.size) && Packed(file.blocks, file.size)
      && |file.blocks| == current + 1
      && BlockOk(page[..])
      && BlockRecords(file.blocks[current]) <= BlockRecords(page[..])
      && savedLsn <= latestLsn
      && latestLsn - savedLsn == |BlockRecords(page[..])| - |BlockRecords(file.blocks[current])|
    }

    /** All records appended so far, oldest first. */
    ghost function Log(): seq<Image>
      reads this, file, page
      requires Valid()
    {
      FileRecords(file.blocks[..current], file.size) + BlockRecords(page[..])
    }

    /** The records that a crash would leave. */
    ghost function OnDisk(): seq<Image>
      reads this, file
      requires FileOk(file.blocks, file.size)
    {
      FileRecords(file.blocks, file.size)
    }

    /** The disk has a prefix of the log, short by the records whose LSN is above the saved one. */
    lemma DiskIsPrefix()
      requires Valid()
      ensures OnDisk() <= Log()
      ensures |OnDisk()| == |Log()| - (latestLsn - savedLsn)
    {
      assert file.blocks == file.blocks[..current] + [file.blocks[current]];
      FileSnoc(file.blocks[..current], file.blocks[current], file.size);
    }

    /** A new file gets an empty first block; otherwise the last block is continued. */
    constructor (file: LogFile)
      requires IsInt32(file.size) && INT_SIZE <= file.size
      requires FileOk(file.blocks, file.size) && Packed(file.blocks, file.size)
      modifies file
      ensures this.file == file && fresh(page) && Valid()
      ensures Log() == OnDisk() == old(FileRecords(file.blocks, file.size))
      ensures latestLsn == savedLsn == 0
    {
      this.file := file;
      page := new byte[file.size](_ => 0);
      latestLsn, savedLsn := 0, 0;
      current := if |file.blocks| == 0 then 0 else |file.blocks| - 1;
      new;
      if |file.blocks| == 0 {
        FirstBlock();
      } else {
        LastBlock();
      }
      StartsWhole();
    }

    method FirstBlock()
      requires page.Length == file.size && IsInt32(file.size) && INT_SIZE <= file.size && file.blocks == []
      modifies file, page
      ensures file.blocks == [page[..]] && BlockOk(page[..]) && BlockRecords(page[..]) == []
      ensures FileOk(file.blocks, file.size) && Packed(file.blocks, file.size) && FileRecords(file.blocks, file.size) == []
    {
      ClearedEmpty(page[..]);
      AppendNewBlock();
      FileSnoc([], page[..], file.size);
      assert file.blocks == [] + [page[..]];
    }

    method LastBlock()
      requires page.Length == file.size && |file.blocks| == current + 1 && FileOk(file.blocks, file.size)
      modifies page
      ensures page[..] == file.blocks[current] && BlockOk(page[..])
    {
      CopyInto(page, 0, file.blocks[current]);
      assert page[..] == file.blocks[current];
    }

    /** A manager whose page is the last block of the file has the file's records as its log. */
    lemma StartsWhole()
      requires |file.blocks| == current + 1 && page[..] == file.blocks[current]
      requires FileOk(file.blocks, file.size)
      ensures FileRecords(file.blocks[..current], file.size) + BlockRecords(page[..]) ==
              FileRecords(file.blocks, file.size)
    {
      assert file.blocks == file.blocks[..current] + [file.blocks[current]];
      FileSnoc(file.blocks[..current], file.blocks[current], file.size);
    }

    /** Add a block to the file and start it in the page: only the boundary word is set. */
    method AppendNewBlock()
      requires page.Length == file.size && IsInt32(file.size) && INT_SIZE <= file.size
      modifies file, page
      ensures page[..] == Cleared(old(page[..]))
      ensures file.blocks == old(file.blocks) + [page[..]]
    {
      CopyInto(page, 0, IntBytes(file.size));
      file.blocks := file.blocks + [page[..]];
    }

    /** Write the page out. */
    method WritePage()
      requires Valid()
      modifies this`savedLsn, file
      ensures Valid() && Log() == old(Log()) && OnDisk() == Log() && savedLsn == latestLsn
      ensures file.blocks == old(file.blocks)[current := page[..]]
    {
      file.blocks := file.blocks[current := page[..]];
      savedLsn := latestLsn;
      assert file.blocks[..current] == old(file.blocks)[..current];
      DiskIsPrefix();
    }

    method Flush(lsn: int)
      requires Valid()
      modifies this`savedLsn, file
      ensures Valid() && Log() == old(Log())
      ensures if lsn > old(savedLsn) then OnDisk() == Log() && savedLsn == latestLsn
              else OnDisk() == old(OnDisk()) && savedLsn == old(savedLsn)
      ensures lsn <= latestLsn ==> lsn <= savedLsn
      ensures |file.blocks| == old(|file.blocks|) && file.blocks[..current] == old(file.blocks[..current])
    {
      if lsn > savedLsn {
        WritePage();
      }
    }

    /** A record of this length fits before those of the current page. */
    ghost predicate HasRoom(n: nat)
      requires Valid()
      reads this, file, page
    {
      Boundary(page[..]) - (n + INT_SIZE) >= INT_SIZE
    }

    /** A record that fits in an empty block goes to the log; a full page is written out first. */
    method Append(rec: Image) returns (lsn: int)
      requires Valid() && |rec| + 2 * INT_SIZE <= file.size
      modifies this, file, page
      ensures Valid() && Log() == old(Log()) + [rec]
      ensures lsn == latestLsn == old(latestLsn) + 1
      ensures if old(HasRoom(|rec|)) then
                current == old(current) && OnDisk() == old(OnDisk()) && savedLsn == old(savedLsn) &&
                Boundary(page[..]) == old(Boundary(page[..])) - (|rec| + INT_SIZE)
              else
                current == old(current) + 1 && OnDisk() == old(Log()) && savedLsn == old(latestLsn) &&
                Boundary(page[..]) == file.size - (|rec| + INT_SIZE)
      ensures old(current) <= current < |file.blocks| && file.blocks[..old(current)] == old(file.blocks[..current])
    {
      MakeRoom(|rec|);
      PutRecord(GetInt(page[..], 0) - (|rec| + INT_SIZE), rec);
      lsn := latestLsn;
    }

    method MakeRoom(n: nat)
      requires Valid() && n + 2 * INT_SIZE <= file.size
      modifies this`savedLsn, this`current, file, page
      ensures Valid() && Log() == old(Log()) && Boundary(page[..]) - (n + INT_SIZE) >= INT_SIZE
      ensures if old(HasRoom(n)) then
                current == old(current) && OnDisk() == old(OnDisk()) && savedLsn == old(savedLsn) &&
                Boundary(page[..]) == old(Boundary(page[..]))
              else
                current == old(current) + 1 && OnDisk() == old(Log()) && savedLsn == old(latestLsn) &&
                Boundary(page[..]) == file.size
      ensures old(current) <= current < |file.blocks| && file.blocks[..old(current)] == old(file.blocks[..current])
    {
      var boundary := GetInt(page[..], 0);
      if boundary - (n + INT_SIZE) < INT_SIZE {
        NextBlock();
      }
    }

    method NextBlock()
      requires Valid() && Boundary(page[..]) < file.size
      modifies this`savedLsn, this`current, file, page
      ensures Valid() && Log() == old(Log()) && OnDisk() == Log() && savedLsn == latestLsn
      ensures Boundary(page[..]) == file.size && current == old(current) + 1
      ensures file.blocks[..old(current)] == old(file.blocks[..current])
    {
      WritePage();
      StartBlock();
    }

    method StartBlock()
      requires Valid() && Boundary(page[..]) < file.size && file.blocks[current] == page[..] && savedLsn == latestLsn
      modifies this`current, file, page
      ensures Valid() && Log() == OnDisk() == old(OnDisk())
      ensures Boundary(page[..]) == file.size && current == old(current) + 1
      ensures file.blocks[..current] == old(file.blocks)
    {
      ClearedEmpty(page[..]);
      AppendNewBlock();
      current := current + 1;
      FileSnoc(old(file.blocks), page[..], file.size);
      assert file.blocks[..current] == old(file.blocks);
    }

    method PutRecord(at: nat, rec: Image)
      requires Valid() && at == Boundary(page[..]) - (|rec| + INT_SIZE) && INT_SIZE <= at
      modifies this`latestLsn, page
      ensures Valid() && Log() == old(Log()) + [rec] && latestLsn == old(latestLsn) + 1
      ensures Boundary(page[..]) == at
    {
      PutAdds(page[..], rec);
      hide Chain, Records;
      CopyInto(page, at, Blob(rec));
      CopyInto(page, 0, IntBytes(at));
      latestLsn := latestLsn + 1;
    }

    method Iterator() returns (it: LogIterator)
      requires Valid()
      modifies this`savedLsn, file
      ensures Valid() && Log() == old(Log()) && OnDisk() == Log()
      ensures fresh(it) && it.file == file && it.Valid() && it.Rest() == Log()
    {
      WritePage();
      DiskIsPrefix();
      it := new LogIterator(file, current);
      assert file.blocks[..current + 1] == file.blocks;
    }
  }

  /** Reads the records of a log file from a block backwards, on its own copy of one block at a time. */
  class LogIterator {
    const file: LogFile
    var block: nat
    var page: Image
    var pos: nat

    ghost predicate Valid()
      reads this, file
    {
      && block < |file.blocks|
      && FileOk(file.blocks[..block], file.size)
      && (forall i :: 0 <= i < block ==> Boundary(file.blocks[i]) < file.size)
      && |page| == file.size && pos <= |page| && Chain(page, pos)
    }

    /** The records still to come, oldest first: the last of them is next. */
    ghost function Rest(): seq<Image>
      reads this, file
      requires Valid()
    {
      FileRecords(file.blocks[..block], file.size) + Records(page, pos)
    }

    constructor (file: LogFile, block: nat)
      requires block < |file.blocks| && FileOk(file.blocks, file.size) && Packed(file.blocks, file.size)
      ensures this.file == file && Valid()
      ensures Rest() == FileRecords(file.blocks[..block + 1], file.size)
    {
      this.file := file;
      this.block := block;
      page := file.blocks[block];
      pos := GetInt(file.blocks[block], 0);
      new;
      assert file.blocks[..block + 1] == file.blocks[..block] + [file.blocks[block]];
      FileSnoc(file.blocks[..block], file.blocks[block], file.size);
    }

    predicate HasNext()
      reads this, file
      requires Valid()
      ensures HasNext() <==> Rest() != []
    {
      RestIsMore();
      pos < file.size || block > 0
    }

    /** Behind an exhausted block there is a block with a record in it. */
    lemma RestIsMore()
      requires Valid()
      ensures (pos < file.size || block > 0) <==> Rest() != []
    {
      if pos == file.size && block > 0 {
        assert file.blocks[..block] == file.blocks[..block - 1] + [file.blocks[block - 1]];
        FileSnoc(file.blocks[..block - 1], file.blocks[block - 1], file.size);
      }
    }

    /** Go on in the block before. */
    method MoveBack()
      requires Valid() && pos == file.size && block > 0
      modifies this
      ensures Valid() && Rest() == old(Rest()) && pos < file.size
    {
      assert file.blocks[..block] == file.blocks[..block - 1] + [file.blocks[block - 1]];
      FileSnoc(file.blocks[..block - 1], file.blocks[block - 1], file.size);
      block := block - 1;
      page := file.blocks[block];
      pos := GetInt(page, 0);
    }

    method Next() returns (rec: Image)
      requires Valid() && HasNext()
      modifies this
      ensures Valid() && old(Rest()) == Rest() + [rec]
    {
      if pos == file.size {
        MoveBack();
      }
      rec := GetBytes(page, pos);
      pos := pos + INT_SIZE + |rec|;
    }

    /** Appending to the log and writing its page do not disturb an iterator that is under way. */
    twostate lemma Undisturbed(current: nat)
      requires old(Valid()) && block <= current && current <= old(|file.blocks|) && current <= |file.blocks|
      requires file.blocks[..current] == old(file.blocks[..current]) && block < |file.blocks|
      requires unchanged(this)
      ensures Valid() && Rest() == old(Rest())
    {
      assert file.blocks[..block] == file.blocks[..current][..block];
      assert old(file.blocks[..block]) == old(file.blocks[..current])[..block];
    }
  }

  function Reversed(s: seq<Image>): seq<Image> {
    if s == [] then [] else [s[|s| - 1]] + Reversed(s[..|s| - 1])
  }

  lemma ReversedSnoc(s: seq<Image>, x: Image)
    ensures Reversed(s + [x]) == [x] + Reversed(s)
  {
    assert (s + [x])[..|s + [x]| - 1] == s;
  }

  lemma DrainOne(all: seq<Image>, seen: seq<Image>, rest: seq<Image>, rec: Image)
    requires Reversed(all) == seen + Reversed(rest + [rec])
    ensures Reversed(all) == (seen + [rec]) + Reversed(rest)
  {
    ReversedSnoc(rest, rec);
    assert seen + ([rec] + Reversed(rest)) == (seen + [rec]) + Reversed(rest);
  }

  /** The reading loop of a backward scan. */
  method Drain(it: LogIterator) returns (recs: seq<Image>)
    requires it.Valid()
    modifies it
    ensures it.Valid() && !it.HasNext() && recs == Reversed(old(it.Rest()))
  {
    recs := [];
    while it.HasNext()
      invariant it.Valid() && Reversed(old(it.Rest())) == recs + Reversed(it.Rest())
      decreases |it.Rest()|
    {
      ghost var seen := recs;
      var rec := it.Next();
      DrainOne(old(it.Rest()), seen, it.Rest(), rec);
      recs := recs + [rec];
    }
  }

  /** A whole iteration reads the log in exact reverse order, and then there is no next record. */
  method ReadBackwards(log: LogManager) returns (recs: seq<Image>, it: LogIterator)
    requires log.Valid()
    modifies log`savedLsn, log.file
    ensures log.Valid() && log.Log() == old(log.Log()) && recs == Reversed(log.Log())
    ensures it.Valid() && !it.HasNext()
  {
    it := log.Iterator();
    recs := Drain(it);
  }
}
