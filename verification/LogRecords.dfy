/** The byte layouts of the log records. */
module LogRecords {
  import opened Storage
  import opened Locks
  import opened Bytes
  import opened Engine
  import opened LogBytes

  // LogType.
  const CHECKPOINT := 0
  const START := 1
  const COMMIT := 2
  const ROLLBACK := 3
  const SETINT := 4
  const SETSTRING := 5

  predicate IsText(s: string) {
    IsInt32(|s|) && forall i :: 0 <= i < |s| ==> s[i] as int < 256
  }

  function TextBytes(s: string): (bs: Image)
    requires IsText(s)
    ensures |bs| == |s|
  {
    seq(|s|, i requires 0 <= i < |s| => s[i] as int)
  }

  function BytesText(bs: Image): (s: string)
    ensures |s| == |bs|
  {
    seq(|bs|, i requires 0 <= i < |bs| => bs[i] as char)
  }

  lemma TextRoundTrip(s: string)
    requires IsText(s)
    ensures BytesText(TextBytes(s)) == s
  {
  }

  /** A page that was never written is zeroed bytes: every integer in it is 0 and every string is empty. */
  lemma {:induction false} NeverWritten(p: Image, at: nat)
    requires at + INT_SIZE <= |p| && forall i :: 0 <= i < |p| ==> p[i] == 0
    ensures Get(map[], IntField(at)) == IntValue(GetInt(p, at))
    ensures HasBlob(p, at) && Get(map[], StringField(at)) == StringValue(BytesText(GetBytes(p, at)))
  {
    assert GetInt(p, at) == 0;
    assert BytesText(GetBytes(p, at)) == "";
  }

  /** What fits in the fixed-size words; a SETINT is for an int field and a SETSTRING for a string field. */
  predicate Encodable(r: Record) {
    match r
    case Checkpoint => true
    case Start(t) => IsInt32(t)
    case Commit(t) => IsInt32(t)
    case Rollback(t) => IsInt32(t)
    case SetVal(t, loc, was) =>
      IsInt32(t) && IsText(loc.block.file) && IsInt32(loc.block.num) && IsInt32(loc.field.offset) &&
      (match loc.field
       case IntField(_) => was.IntValue? && IsInt32(was.i)
       case StringField(_) => was.StringValue? && IsText(was.s))
  }

  function ValueBytes(v: Value): Image
    requires if v.IntValue? then IsInt32(v.i) else IsText(v.s)
  {
    match v
    case IntValue(i) => IntBytes(i)
    case StringValue(s) => Blob(TextBytes(s))
  }

  function Op(r: Record): (op: int)
    ensures IsInt32(op)
  {
    match r
    case Checkpoint => CHECKPOINT
    case Start(_) => START
    case Commit(_) => COMMIT
    case Rollback(_) => ROLLBACK
    case SetVal(_, loc, _) => if loc.field.IntField? then SETINT else SETSTRING
  }

  /** The layout that the records' WriteToLog functions produce. */
  function Encode(r: Record): Image
    requires Encodable(r)
  {
    match r
    case Checkpoint => IntBytes(CHECKPOINT)
    case Start(t) => IntBytes(START) + IntBytes(t)
    case Commit(t) => IntBytes(COMMIT) + IntBytes(t)
    case Rollback(t) => IntBytes(ROLLBACK) + IntBytes(t)
    case SetVal(t, loc, was) =>
      IntBytes(Op(r)) + IntBytes(t) + Blob(TextBytes(loc.block.file)) + IntBytes(loc.block.num) +
      IntBytes(loc.field.offset) + ValueBytes(was)
  }

  // ---- Reading ----

  /** SetIntRecord and SetStringRecord: each position is computed from the one before. */
  function ReadSetVal(bs: Image, isInt: bool): Option<Record> {
    var txnPos := INT_SIZE;
    var filePos := txnPos + INT_SIZE;
    if !HasBlob(bs, filePos) then None
    else
      var file := GetBytes(bs, filePos);
      var blockPos := filePos + INT_SIZE + |file|;
      var offsetPos := blockPos + INT_SIZE;
      var valPos := offsetPos + INT_SIZE;
      if isInt then
        if valPos + INT_SIZE > |bs| then None
        else
          var block := BlockId(BytesText(file), GetInt(bs, blockPos));
          Some(SetVal(GetInt(bs, txnPos), Loc(block, IntField(GetInt(bs, offsetPos))), IntValue(GetInt(bs, valPos))))
      else
        if !HasBlob(bs, valPos) then None
        else
          var block := BlockId(BytesText(file), GetInt(bs, blockPos));
          Some(SetVal(GetInt(bs, txnPos), Loc(block, StringField(GetInt(bs, offsetPos))),
                      StringValue(BytesText(GetBytes(bs, valPos)))))
  }

  /** LogRecord::CreateLogRecord; a record of an unknown type gives nothing. */
  function CreateLogRecord(bs: Image): Option<Record> {
    if |bs| < INT_SIZE then None
    else
      var op := GetInt(bs, 0);
      if op == CHECKPOINT then Some(Checkpoint)
      else if |bs| < 2 * INT_SIZE then None
      else if op == START then Some(Start(GetInt(bs, INT_SIZE)))
      else if op == COMMIT then Some(Commit(GetInt(bs, INT_SIZE)))
      else if op == ROLLBACK then Some(Rollback(GetInt(bs, INT_SIZE)))
      else if op == SETINT then ReadSetVal(bs, true)
      else if op == SETSTRING then ReadSetVal(bs, false)
      else None
  }

  /** An int at the end of what is written so far stays readable whatever follows. */
  lemma IntIn(p: Image, v: int, q: Image)
    requires IsInt32(v) && p + IntBytes(v) <= q
    ensures |p| + INT_SIZE <= |q| && GetInt(q, |p|) == v
  {
    assert q[|p|..|p| + INT_SIZE] == (p + IntBytes(v))[|p|..] == IntBytes(v);
    IntRoundTrip(v);
  }

  lemma BlobIn(p: Image, bs: Image, q: Image)
    requires IsInt32(|bs|) && p + Blob(bs) <= q
    ensures HasBlob(q, |p|) && GetBytes(q, |p|) == bs
  {
    assert q[|p|..|p| + INT_SIZE + |bs|] == (p + Blob(bs))[|p|..] == Blob(bs);
    BlobAt(q, |p|, bs);
  }

  /** Where the parts of a SETINT or SETSTRING record lie. */
  lemma SetValParts(op: int, t: int, file: Image, num: int, offset: int, bs: Image)
    requires IsInt32(op) && IsInt32(t) && IsInt32(|file|) && IsInt32(num) && IsInt32(offset)
    requires IntBytes(op) + IntBytes(t) + Blob(file) + IntBytes(num) + IntBytes(offset) <= bs
    ensures var blockPos := 3 * INT_SIZE + |file|;
            && blockPos + 2 * INT_SIZE <= |bs|
            && GetInt(bs, 0) == op && GetInt(bs, INT_SIZE) == t
            && HasBlob(bs, 2 * INT_SIZE) && GetBytes(bs, 2 * INT_SIZE) == file
            && GetInt(bs, blockPos) == num && GetInt(bs, blockPos + INT_SIZE) == offset
  {
    var p1 := IntBytes(op);
    var p2 := p1 + IntBytes(t);
    var p3 := p2 + Blob(file);
    var p4 := p3 + IntBytes(num);
    assert [] + p1 == p1;
    IntIn([], op, bs);
    IntIn(p1, t, bs);
    BlobIn(p2, file, bs);
    IntIn(p3, num, bs);
    IntIn(p4, offset, bs);
  }

  lemma SetValRoundTrip(r: Record)
    requires Encodable(r) && r.SetVal?
    ensures CreateLogRecord(Encode(r)) == Some(r)
  {
    var file := TextBytes(r.loc.block.file);
    var bs := Encode(r);
    var head := IntBytes(Op(r)) + IntBytes(r.t) + Blob(file) + IntBytes(r.loc.block.num) + IntBytes(r.loc.field.offset);
    assert head + ValueBytes(r.was) == bs;
    SetValParts(Op(r), r.t, file, r.loc.block.num, r.loc.field.offset, bs);
    TextRoundTrip(r.loc.block.file);
    match r.was {
      case IntValue(i) => IntIn(head, i, bs);
      case StringValue(s) =>
        BlobIn(head, TextBytes(s), bs);
        TextRoundTrip(s);
    }
  }

  /** Every record that fits its words reads back as itself. */
  lemma RecordRoundTrip(r: Record)
    requires Encodable(r)
    ensures CreateLogRecord(Encode(r)) == Some(r)
  {
    if r.SetVal? {
      SetValRoundTrip(r);
    } else {
      assert [] + IntBytes(Op(r)) == IntBytes(Op(r));
      IntIn([], Op(r), Encode(r));
      if !r.Checkpoint? {
        IntIn(IntBytes(Op(r)), r.t, Encode(r));
      }
    }
  }

  /** The words of a record: its type, the transaction, and for a changed value the file name, block number, offset and
      old value, one behind the other. */
  lemma {:induction false} RecordLayout(r: Record)
    requires Encodable(r)
    ensures var bs := Encode(r);
            && |bs| >= 4 && (!r.Checkpoint? ==> |bs| >= 8 && GetInt(bs, 4) == r.t)
            && GetInt(bs, 0) == match r case Checkpoint => 0 case Start(_) => 1 case Commit(_) => 2 case Rollback(_) => 3
                                  case SetVal(_, loc, _) => if loc.field.IntField? then 4 else 5
    ensures r.SetVal? ==>
              var bs, n := Encode(r), |r.loc.block.file|;
              && |bs| >= n + 24 && HasBlob(bs, 8) && BytesText(GetBytes(bs, 8)) == r.loc.block.file
              && GetInt(bs, n + 12) == r.loc.block.num && GetInt(bs, n + 16) == r.loc.field.offset
              && (r.was.IntValue? ==> GetInt(bs, n + 20) == r.was.i)
              && (r.was.StringValue? ==> HasBlob(bs, n + 20) && BytesText(GetBytes(bs, n + 20)) == r.was.s)
  {
    var bs := Encode(r);
    if r.SetVal? {
      var file := TextBytes(r.loc.block.file);
      var head := IntBytes(Op(r)) + IntBytes(r.t) + Blob(file) + IntBytes(r.loc.block.num) + IntBytes(r.loc.field.offset);
      assert head + ValueBytes(r.was) == bs;
      SetValParts(Op(r), r.t, file, r.loc.block.num, r.loc.field.offset, bs);
      TextRoundTrip(r.loc.block.file);
      match r.was
      case IntValue(i) => IntIn(head, i, bs);
      case StringValue(s) =>
        BlobIn(head, TextBytes(s), bs);
        TextRoundTrip(s);
    } else {
      assert [] + IntBytes(Op(r)) == IntBytes(Op(r));
      IntIn([], Op(r), bs);
      if !r.Checkpoint? {
        IntIn(IntBytes(Op(r)), r.t, bs);
      }
    }
  }

  // ---- Writing: the buffer is filled field by field ----

  /** A buffer whose first `at` bytes are done gets its next field. */
  method Fill(record: array<byte>, at: nat, bs: Image)
    requires at + |bs| <= record.Length
    modifies record
    ensures record[..at + |bs|] == old(record[..at]) + bs
  {
    CopyInto(record, at, bs);
    SpliceParts(old(record[..]), at, bs);
    assert record[..at + |bs|] == record[..][..at] + record[..][at..at + |bs|];
    assert record[..][..at] == old(record[..])[..at] == old(record[..at]);
  }

  /** The type, the transaction and the file name. */
  method FillHead(record: array<byte>, op: int, t: TxnId, file: Image)
    requires IsInt32(op) && IsInt32(t) && IsInt32(|file|) && 3 * INT_SIZE + |file| <= record.Length
    modifies record
    ensures record[..3 * INT_SIZE + |file|] == IntBytes(op) + IntBytes(t) + Blob(file)
  {
    hide IntBytes;
    Fill(record, 0, IntBytes(op));
    assert record[..0] == [];
    Fill(record, INT_SIZE, IntBytes(t));
    Fill(record, 2 * INT_SIZE, Blob(file));
  }

  /** SetIntRecord::WriteToLog and SetStringRecord::WriteToLog, up to the append. */
  method WriteSetVal(t: TxnId, loc: Loc, was: Value) returns (record: array<byte>)
    requires Encodable(SetVal(t, loc, was))
    ensures fresh(record) && record[..] == Encode(SetVal(t, loc, was))
  {
    var blockPos := 3 * INT_SIZE + |loc.block.file|;
    var offsetPos := blockPos + INT_SIZE;
    var valPos := offsetPos + INT_SIZE;
    var val := ValueBytes(was);
    record := new byte[valPos + |val|](_ => 0);
    hide IntBytes, TextBytes, Blob, ValueBytes, Encodable;
    FillHead(record, if loc.field.IntField? then SETINT else SETSTRING, t, TextBytes(loc.block.file));
    Fill(record, blockPos, IntBytes(loc.block.num));
    Fill(record, offsetPos, IntBytes(loc.field.offset));
    Fill(record, valPos, val);
    assert record[..] == record[..valPos + |val|];
  }

  /** The bytes of a log stand for these records. */
  ghost predicate StandsFor(images: seq<Image>, log: seq<Record>) {
    |images| == |log| && forall i :: 0 <= i < |log| ==> CreateLogRecord(images[i]) == Some(log[i])
  }

  /** The other records: the type word, and the transaction unless it is a checkpoint. */
  method WriteShort(r: Record) returns (record: array<byte>)
    requires Encodable(r) && !r.SetVal?
    ensures fresh(record) && record[..] == Encode(r)
  {
    record := new byte[if r.Checkpoint? then INT_SIZE else 2 * INT_SIZE](_ => 0);
    Fill(record, 0, IntBytes(Op(r)));
    assert record[..0] == [];
    if !r.Checkpoint? {
      Fill(record, INT_SIZE, IntBytes(r.t));
    }
    assert record[..] == record[..record.Length];
  }

  /** Writing a record to the byte log appends that record to the log that the bytes stand for. */
  method WriteToLog(manager: LogManager, r: Record, ghost log: seq<Record>) returns (lsn: int)
    requires manager.Valid() && StandsFor(manager.Log(), log)
    requires Encodable(r) && |Encode(r)| + 2 * INT_SIZE <= manager.file.size
    modifies manager, manager.file, manager.page
    ensures manager.Valid() && StandsFor(manager.Log(), log + [r])
    ensures lsn == manager.latestLsn
  {
    var record;
    if r.SetVal? {
      record := WriteSetVal(r.t, r.loc, r.was);
    } else {
      record := WriteShort(r);
    }
    RecordRoundTrip(r);
    lsn := manager.Append(record[..]);
  }
}
