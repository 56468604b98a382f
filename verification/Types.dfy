/** Fixed-width values, keys and errors shared by every module.

    A Rust byte array of fixed width is modelled by the number it spells in
    big-endian order, so that lexicographic order on arrays is `<` on numbers
    (see `Bytes.LexicographicIsNumeric`). */
module Types {
  datatype Option<+T> = None | Some(value: T)

  datatype Result<+T> = Ok(value: T) | Err(error: Error)

  datatype Error =
    | StemAddressMismatch
    | KeyIndexAddressMismatch
    | RootVerificationFailed(expected: B256, computed: B256)
    | NoCanonicalState
    | MissingKeyIndexHead
    | MissingAddresses(count: nat)
    | InvalidNomtValueLength
    | EmptyKeyIndex
    | FromAfterTo
    | ToAheadOfHead
    | BeforeRetentionWindow

  const TWO_64: nat := 0x1_0000_0000_0000_0000
  const TWO_160: nat := 0x1_00000000_00000000_00000000_00000000_00000000
  const TWO_248: nat := 0x1_00000000000000_00000000_00000000_00000000_00000000_00000000_00000000
  const TWO_256: nat := 0x1_00000000_00000000_00000000_00000000_00000000_00000000_00000000_00000000

  type u64 = x: int | 0 <= x < TWO_64
  type Address = x: int | 0 <= x < TWO_160
  type Stem = x: int | 0 <= x < TWO_248
  type Subindex = x: int | 0 <= x < 256
  type B256 = x: int | 0 <= x < TWO_256
  type NonZero = x: B256 | x != 0 witness 1

  datatype TreeKey = TreeKey(stem: Stem, subindex: Subindex)

  /** The 31 stem bytes followed by the subindex byte, read as a number. */
  function TreeIndex(key: TreeKey): B256 {
    key.stem * 256 + key.subindex
  }

  /** A `PendingEntry`: the new value of one key and the account it belongs to. */
  datatype Entry = Entry(key: TreeKey, value: B256, address: Address)

  /** One undo record: the value a key held before a commit changed it. */
  datatype Delta = Delta(key: TreeKey, old_: B256)

  /** Everything one `commit` call is given. */
  datatype Block = Block(number: u64, hash: B256, entries: seq<Entry>)

  /** A persisted head, in MDBX or in the key index. */
  datatype Head = Head(number: u64, hash: B256, root: B256, stemCount: nat)
}
