/** The chain's records, and digests as free terms: two digests are equal exactly when they were
    built by the same hash from equal inputs. */
module Types {

  const U16_LIMIT: nat := 0x1_0000
  const U32_LIMIT: nat := 0x1_0000_0000
  const U64_LIMIT: nat := 0x1_0000_0000_0000_0000
  const U128_LIMIT: nat := 0x1_0000_0000_0000_0000_0000_0000_0000_0000

  type u16 = x: int | 0 <= x < U16_LIMIT
  type u32 = x: int | 0 <= x < U32_LIMIT
  type u64 = x: int | 0 <= x < U64_LIMIT
  type u128 = x: int | 0 <= x < U128_LIMIT

  datatype Option<+T> = None | Some(value: T)

  datatype Result<+T, +E> = Ok(value: T) | Err(error: E)

  /** A 256-bit word as its two little-endian halves. */
  datatype Word256 = Word256(first: u128, second: u128)

  type Address = Word256

  const ZERO_WORD := Word256(0, 0)

  /** One UTXO slot: the packed `(amount, creation id)` lane and the owner's two halves. */
  datatype SlotValue = SlotValue(value: u128, ownerHi: u128, ownerLo: u128) {
    function Amount(): u64 { value % U64_LIMIT }
    function CreationId(): u64 { value / U64_LIMIT }
    predicate IsEmpty() { this == EMPTY }
  }

  const EMPTY := SlotValue(0, 0, 0)

  function LiveSlot(amount: u64, creationId: u64, owner: Address): (slot: SlotValue)
    ensures slot.Amount() == amount && slot.CreationId() == creationId
    ensures slot.IsEmpty() <==> amount == 0 && creationId == 0 && owner == ZERO_WORD
  {
    SlotValue(creationId * U64_LIMIT + amount, owner.first, owner.second)
  }

  datatype BlockHeader<D> = BlockHeader(
    prevBlockHash: D,
    stateRoot: D,
    txRoot: D,
    timestamp: u64,
    height: u64,
    minerAddress: Address,
    nonce: u128,
    difficultyTarget: Word256,
    logSlots: u32,
    activeSlotCount: u64,
    allocCounter: u64)

  datatype TxInput = TxInput(slotIndex: u32, amount: u64, creationId: u64)

  datatype TxOutput = TxOutput(slotIndex: u32, amount: u64, owner: Address)

  datatype TxBody<D> = TxBody(
    epochAnchor: D,
    fee: u64,
    inputOwner: Address,
    inputs: seq<TxInput>,
    outputs: seq<TxOutput>,
    validityBitmap: u16,
    isCoinbase: bool)

  /** The domain separation tags of the two-to-one compressions. */
  datatype NodeTag = PlainNode | ExactStateNode | TxCountNode

  /** The capacity tags of the sponges. */
  datatype SpongeTag = BlockHeaderTag | SemanticHeaderTag | PowHeaderTag | TxBodyTag | PagedSpendTag

  datatype Digest =
    | ZeroDigest
    | Opaque(word: Word256)
    | CountDigest(count: nat)
    | SlotLeaf(slot: SlotValue)
    | Node(tag: NodeTag, left: Digest, right: Digest)
    | Sponge(domain: SpongeTag, absorbed: seq<Lane>)

  /** One lane on its way into a sponge: a zero-extended number, or one half of a digest. */
  datatype Lane = Scalar(value: nat) | FirstHalf(digest: Digest) | SecondHalf(digest: Digest)

  type Header = BlockHeader<Digest>

  const TX_INPUTS: nat := 8
  const TX_OUTPUTS: nat := 2

  const DUMMY_INPUT := TxInput(0, 0, 0)
  const DUMMY_OUTPUT := TxOutput(0, 0, ZERO_WORD)

  predicate FixedShape<D>(body: TxBody<D>) {
    |body.inputs| == TX_INPUTS && |body.outputs| == TX_OUTPUTS
  }

  type Body = body: TxBody<Digest> | FixedShape(body)
    witness TxBody(ZeroDigest, 0, ZERO_WORD, seq(TX_INPUTS, i => DUMMY_INPUT), seq(TX_OUTPUTS, i => DUMMY_OUTPUT), 0,
                   false)
}
