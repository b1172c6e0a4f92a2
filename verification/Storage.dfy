/** Blocks, typed fields and pages: the store below the transaction layer. */
module Storage {

  datatype Option<+T> = None | Some(value: T)

  datatype BlockId = BlockId(file: string, num: int)

  /** A client's field in a page. Clients keep fields apart, so the offset and the type name it. */
  datatype Field = IntField(offset: int) | StringField(offset: int)

  datatype Value = IntValue(i: int) | StringValue(s: string)

  datatype Loc = Loc(block: BlockId, field: Field)

  /** The fields of a page that were ever written; every other field is still zero. */
  type Page = map<Field, Value>

  type Disk = map<BlockId, Page>

  /** The value of a field in a zeroed page: the integer 0, or a string whose length word is 0. */
  function Zero(f: Field): Value {
    match f
    case IntField(_) => IntValue(0)
    case StringField(_) => StringValue("")
  }

  function Get(p: Page, f: Field): Value {
    if f in p then p[f] else Zero(f)
  }

  /** Reading past the end of a file gives a zeroed page. */
  function ReadBlock(disk: Disk, b: BlockId): Page {
    if b in disk then disk[b] else map[]
  }

  function DiskGet(disk: Disk, loc: Loc): Value {
    Get(ReadBlock(disk, loc.block), loc.field)
  }

  /** Two pages that no typed read can tell apart. */
  ghost predicate SamePage(p: Page, q: Page) {
    forall f: Field :: Get(p, f) == Get(q, f)
  }
}
