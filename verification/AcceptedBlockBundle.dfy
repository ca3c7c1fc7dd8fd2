/** The accepted-block bundle: a block and the terminal that binds it, framed with their lengths. */
module AcceptedBlockBundle {
  import opened Types
  import opened HeaderHash
  import opened Transactions
  import opened Wire
  import opened RecordWire
  import opened BlockWire

  // The terminal's public prefix.

  const TERMINAL_VERSION: nat := 4
  const SHARED_PATH_VERSION: nat := 5
  const CLASS_COUNT: nat := 4

  predicate ActiveFrom(activation: Option<u64>, height: u64) {
    activation.Some? && height >= activation.value
  }

  /** The wire version is chosen by the terminal's own height. */
  function WireVersion(height: u64, sharedPathFrom: Option<u64>): nat {
    if ActiveFrom(sharedPathFrom, height) then SHARED_PATH_VERSION else TERMINAL_VERSION
  }

  datatype TerminalMetadata = TerminalMetadata(height: u64, hash: Word256, classId: nat)

  datatype MetadataError = MetadataTruncated | UnsupportedVersion(actual: nat) | InvalidClassId(actual: nat)

  predicate MetadataValid(m: TerminalMetadata) {
    m.classId < CLASS_COUNT
  }

  /** `encode_prefix`. */
  function EncodePrefix(m: TerminalMetadata, sharedPathFrom: Option<u64>): (bytes: seq<byte>)
    ensures |bytes| == Size(PREFIX_LAYOUT)
  {
    Encode(PREFIX_LAYOUT, PrefixFields(m, sharedPathFrom))
  }

  function PrefixFields(m: TerminalMetadata, sharedPathFrom: Option<u64>): seq<nat> {
    [WireVersion(m.height, sharedPathFrom), m.height, m.hash.first, m.hash.second, m.classId]
  }

  /** `decode_prefix`: the height is read before the version is judged. */
  function DecodePrefix(bytes: seq<byte>, sharedPathFrom: Option<u64>): Result<TerminalMetadata, MetadataError> {
    if |bytes| < Size(PREFIX_LAYOUT) then Err(MetadataTruncated)
    else PrefixOf(Decode(PREFIX_LAYOUT, bytes), sharedPathFrom)
  }

  function PrefixOf(v: seq<nat>, sharedPathFrom: Option<u64>): Result<TerminalMetadata, MetadataError>
    requires Fits(PREFIX_LAYOUT, v)
  {
    WordSizes();
    if v[0] != WireVersion(v[1], sharedPathFrom) then Err(UnsupportedVersion(v[0]))
    else if v[4] >= CLASS_COUNT then Err(InvalidClassId(v[4]))
    else Ok(TerminalMetadata(v[1], Word256(v[2], v[3]), v[4]))
  }

  /** The five fields by their bytes. */
  lemma {:induction false} PrefixNumbers(bytes: seq<byte>)
    requires |bytes| >= 42
    ensures var v := Decode(PREFIX_LAYOUT, bytes);
            && v[0] == bytes[0] && v[1] == FromLittleEndian(bytes[1..9]) && v[2] == FromLittleEndian(bytes[9..25])
            && v[3] == FromLittleEndian(bytes[25..41]) && v[4] == bytes[41]
  {
    PrefixStarts();
    OneByte(bytes, 0);
    OneByte(bytes, 41);
  }

  lemma {:induction false} PrefixStarts()
    ensures FieldStart(PREFIX_LAYOUT, 0) == 0 && FieldStart(PREFIX_LAYOUT, 1) == 1 && FieldStart(PREFIX_LAYOUT, 2) == 9
    ensures FieldStart(PREFIX_LAYOUT, 3) == 25 && FieldStart(PREFIX_LAYOUT, 4) == 41 && Size(PREFIX_LAYOUT) == 42
  {
  }

  lemma {:induction false} OneByte(bytes: seq<byte>, k: nat)
    requires k < |bytes|
    ensures FromLittleEndian(bytes[k..k + 1]) == bytes[k]
  {
    assert bytes[k..k + 1][1..] == [];
  }

  /** What a prefix says, byte by byte: version at 0, height at 1, hash at 9, class at 41. The version
      must be 5 from the activation height on and 4 below it; the height is the prefix's own. */
  lemma {:induction false} PrefixExactly(bytes: seq<byte>, sharedPathFrom: Option<u64>)
    ensures |bytes| < 42 ==> DecodePrefix(bytes, sharedPathFrom) == Err(MetadataTruncated)
    ensures |bytes| >= 42 ==>
              var height := FromLittleEndian(bytes[1..9]);
              var version := if sharedPathFrom.Some? && height >= sharedPathFrom.value then 5 else 4;
              var r := DecodePrefix(bytes, sharedPathFrom);
              && (bytes[0] != version ==> r == Err(UnsupportedVersion(bytes[0])))
              && (bytes[0] == version && bytes[41] >= 4 ==> r == Err(InvalidClassId(bytes[41])))
              && (bytes[0] == version && bytes[41] < 4 ==>
                  && r.Ok? && r.value.height == height && r.value.classId == bytes[41]
                  && r.value.hash.first == FromLittleEndian(bytes[9..25])
                  && r.value.hash.second == FromLittleEndian(bytes[25..41]))
  {
    PrefixStarts();
    if |bytes| >= 42 {
      PrefixNumbers(bytes);
    }
  }

  lemma {:induction false} PrefixFits(m: TerminalMetadata, sharedPathFrom: Option<u64>)
    requires MetadataValid(m)
    ensures Fits(PREFIX_LAYOUT, PrefixFields(m, sharedPathFrom))
  {
    WordSizes();
  }

  /** A prefix comes back whatever proof bytes follow it. */
  lemma {:induction false} PrefixRoundTrip(m: TerminalMetadata, sharedPathFrom: Option<u64>, proof: seq<byte>)
    requires MetadataValid(m)
    ensures DecodePrefix(EncodePrefix(m, sharedPathFrom) + proof, sharedPathFrom) == Ok(m)
  {
    PrefixFits(m, sharedPathFrom);
    RecordRoundTrip(PREFIX_LAYOUT, PrefixFields(m, sharedPathFrom), proof);
  }

  /** An accepted prefix is the encoding of what it says: one byte string per metadata value. */
  lemma {:induction false} PrefixCanonical(bytes: seq<byte>, sharedPathFrom: Option<u64>)
    requires DecodePrefix(bytes, sharedPathFrom).Ok?
    ensures |bytes| >= Size(PREFIX_LAYOUT)
    ensures EncodePrefix(DecodePrefix(bytes, sharedPathFrom).value, sharedPathFrom) == bytes[..Size(PREFIX_LAYOUT)]
  {
    RecordCanonical(PREFIX_LAYOUT, bytes);
    PrefixFieldsBack(Decode(PREFIX_LAYOUT, bytes), sharedPathFrom);
  }

  lemma {:induction false} PrefixFieldsBack(v: seq<nat>, sharedPathFrom: Option<u64>)
    requires Fits(PREFIX_LAYOUT, v) && PrefixOf(v, sharedPathFrom).Ok?
    ensures PrefixFields(PrefixOf(v, sharedPathFrom).value, sharedPathFrom) == v
  {
  }

  // The bundle.

  // The bytes "JAB1", read as the little-endian word the frame field holds.
  const MAGIC: nat := 0x3142_414A
  const MAX_BLOCK_BYTES: nat := 1 + 212 + 4 + 256 * 323
  const V1_TERMINAL_LIMIT: nat := 1_048_576
  const TRANSPORT_LIMIT: nat := 1_200_000
  const TERMINAL_BINDING_BYTES: nat := 42
  const BUNDLE_HEADER_BYTES: nat := 12

  /** The activation schedule, the block codec, and the bytes of a digest. */
  datatype Rules<!O> = Rules(wire: WireRules<O>, sharedPathFrom: Option<u64>, wordOf: Digest -> Word256)

  function TerminalLimit(height: u64, sharedPathFrom: Option<u64>): nat {
    if ActiveFrom(sharedPathFrom, height) then TRANSPORT_LIMIT else V1_TERMINAL_LIMIT
  }

  datatype Bundle = Bundle(blockBytes: seq<byte>, terminal: seq<byte>, height: u64, blockHash: Digest)

  datatype BundleError =
    | BundleTooLarge | TruncatedHeader | BadMagic | MissingBlock | BlockTooLarge | MissingHistoryStepTerminal
    | HistoryStepTerminalTooLarge | TruncatedPayload | TrailingPayload | BlockDecode(error: WireError)
    | GenesisIsNotTransported | HistoryStepMetadata(metadata: MetadataError) | TerminalHeightMismatch
    | TerminalHashMismatch

  /** `validate_payload_lengths`. */
  function LengthError(blockLen: nat, terminalLen: nat): Option<BundleError> {
    if blockLen == 0 then Some(MissingBlock)
    else if blockLen > MAX_BLOCK_BYTES then Some(BlockTooLarge)
    else if terminalLen <= TERMINAL_BINDING_BYTES then Some(MissingHistoryStepTerminal)
    else if terminalLen > TRANSPORT_LIMIT then Some(HistoryStepTerminalTooLarge)
    else None
  }

  /** `validate_terminal_binding`. */
  function BindingError<O>(rules: Rules<O>, terminal: seq<byte>, header: WireHeader): Option<BundleError> {
    match DecodePrefix(terminal, rules.sharedPathFrom)
    case Err(error) => Some(HistoryStepMetadata(error))
    case Ok(m) =>
      if m.height != header.height then Some(TerminalHeightMismatch)
      else if m.hash != rules.wordOf(SemanticHeaderId(LiftHeader(header))) then Some(TerminalHashMismatch)
      else None
  }

  /** The checks both constructors share once the header is known. */
  function Seal<O>(rules: Rules<O>, blockBytes: seq<byte>, terminal: seq<byte>, header: WireHeader)
    : Result<Bundle, BundleError>
  {
    if |terminal| > TerminalLimit(header.height, rules.sharedPathFrom) then Err(HistoryStepTerminalTooLarge)
    else match BindingError(rules, terminal, header)
      case Some(error) => Err(error)
      case None => Ok(Bundle(blockBytes, terminal, header.height, HashBlockHeader(LiftHeader(header))))
  }

  /** The decoding constructor, once the block bytes are decoded. */
  function SealDecoded<O>(rules: Rules<O>, blockBytes: seq<byte>, terminal: seq<byte>,
                          decoded: Result<WireBlock<O>, WireError>)
    : Result<Bundle, BundleError>
  {
    match LengthError(|blockBytes|, |terminal|)
    case Some(error) => Err(error)
    case None =>
      match decoded
      case Err(error) => Err(BlockDecode(error))
      case Ok(block) =>
        if block.header.height == 0 then Err(GenesisIsNotTransported)
        else Seal(rules, blockBytes, terminal, block.header)
  }

  /** `try_from_parts`. */
  function TryFromParts<O>(rules: Rules<O>, blockBytes: seq<byte>, terminal: seq<byte>): Result<Bundle, BundleError> {
    SealDecoded(rules, blockBytes, terminal, FromBytes(rules.wire, blockBytes))
  }

  /** The local constructor, once the block is encoded. */
  function SealLocal<O>(rules: Rules<O>, blockBytes: seq<byte>, terminal: seq<byte>, header: WireHeader)
    : Result<Bundle, BundleError>
  {
    if header.height == 0 then Err(GenesisIsNotTransported)
    else match LengthError(|blockBytes|, |terminal|)
      case Some(error) => Err(error)
      case None => Seal(rules, blockBytes, terminal, header)
  }

  /** `try_from_locally_built_block`: the same bundle without decoding the bytes just encoded. */
  function TryFromLocalBlock<O>(rules: Rules<O>, block: WireBlock<O>, terminal: seq<byte>): Result<Bundle, BundleError>
    requires |block.objects| <= MAX_BLOCK_OBJECTS
  {
    SealLocal(rules, EncodeBlock(rules.wire.codec, block), terminal, block.header)
  }

  /** `encode`. */
  function EncodeBundle(b: Bundle): seq<byte> {
    Encode(BUNDLE_LAYOUT, [MAGIC, |b.blockBytes|, |b.terminal|]) + (b.blockBytes + b.terminal)
  }

  /** `decode`. */
  function DecodeBundle<O>(rules: Rules<O>, bytes: seq<byte>): Result<Bundle, BundleError> {
    if |bytes| > BUNDLE_HEADER_BYTES + MAX_BLOCK_BYTES + TRANSPORT_LIMIT then Err(BundleTooLarge)
    else if |bytes| < BUNDLE_HEADER_BYTES then Err(TruncatedHeader)
    else
      var v := Decode(BUNDLE_LAYOUT, bytes);
      if v[0] != MAGIC then Err(BadMagic)
      else match LengthError(v[1], v[2])
        case Some(error) => Err(error)
        case None =>
          if |bytes| < BUNDLE_HEADER_BYTES + v[1] + v[2] then Err(TruncatedPayload)
          else if |bytes| > BUNDLE_HEADER_BYTES + v[1] + v[2] then Err(TrailingPayload)
          else
            var cut := BUNDLE_HEADER_BYTES + v[1];
            TryFromParts(rules, bytes[BUNDLE_HEADER_BYTES..cut], bytes[cut..])
  }

  /** A bundle some constructor produced. */
  predicate Accepted<O(!new)>(rules: Rules<O>, b: Bundle) {
    TryFromParts(rules, b.blockBytes, b.terminal) == Ok(b)
  }

  lemma {:induction false} SealedParts<O(!new)>(rules: Rules<O>, blockBytes: seq<byte>, terminal: seq<byte>,
                                                 decoded: Result<WireBlock<O>, WireError>)
    requires SealDecoded(rules, blockBytes, terminal, decoded).Ok?
    ensures var b := SealDecoded(rules, blockBytes, terminal, decoded).value;
            b.blockBytes == blockBytes && b.terminal == terminal
  {
  }

  lemma {:induction false} PartsKept<O(!new)>(rules: Rules<O>, blockBytes: seq<byte>, terminal: seq<byte>)
    requires TryFromParts(rules, blockBytes, terminal).Ok?
    ensures var b := TryFromParts(rules, blockBytes, terminal).value;
            b.blockBytes == blockBytes && b.terminal == terminal && Accepted(rules, b)
  {
    SealedParts(rules, blockBytes, terminal, FromBytes(rules.wire, blockBytes));
  }

  lemma {:induction false} FrameRoundTrip(b: Bundle)
    requires |b.blockBytes| <= MAX_BLOCK_BYTES && |b.terminal| <= TRANSPORT_LIMIT
    ensures |EncodeBundle(b)| == BUNDLE_HEADER_BYTES + |b.blockBytes| + |b.terminal|
    ensures Decode(BUNDLE_LAYOUT, EncodeBundle(b)) == [MAGIC, |b.blockBytes|, |b.terminal|]
    ensures var cut := BUNDLE_HEADER_BYTES + |b.blockBytes|;
            EncodeBundle(b)[BUNDLE_HEADER_BYTES..cut] == b.blockBytes && EncodeBundle(b)[cut..] == b.terminal
  {
    SmallSizes();
    WordSizes();
    var fields := [MAGIC, |b.blockBytes|, |b.terminal|];
    assert Fits(BUNDLE_LAYOUT, fields);
    RecordRoundTrip(BUNDLE_LAYOUT, fields, b.blockBytes + b.terminal);
    FrameSlices(Encode(BUNDLE_LAYOUT, fields), b.blockBytes, b.terminal);
  }

  lemma {:induction false} FrameSlices(frame: seq<byte>, first: seq<byte>, second: seq<byte>)
    ensures var all := frame + (first + second);
            && |all| == |frame| + |first| + |second|
            && all[|frame|..|frame| + |first|] == first && all[|frame| + |first|..] == second
  {
  }

  /** Every accepted bundle decodes from its own bytes to itself. */
  lemma {:induction false} BundleRoundTrip<O(!new)>(rules: Rules<O>, b: Bundle)
    requires Accepted(rules, b)
    ensures DecodeBundle(rules, EncodeBundle(b)) == Ok(b)
  {
    FrameRoundTrip(b);
  }

  lemma {:induction false} FrameCanonical(bytes: seq<byte>, b: Bundle)
    requires |bytes| >= BUNDLE_HEADER_BYTES
    requires var v := Decode(BUNDLE_LAYOUT, bytes);
             && v[0] == MAGIC && |bytes| == BUNDLE_HEADER_BYTES + v[1] + v[2]
             && b.blockBytes == bytes[BUNDLE_HEADER_BYTES..BUNDLE_HEADER_BYTES + v[1]]
             && b.terminal == bytes[BUNDLE_HEADER_BYTES + v[1]..]
    ensures EncodeBundle(b) == bytes
  {
    SmallSizes();
    RecordCanonical(BUNDLE_LAYOUT, bytes);
    var v := Decode(BUNDLE_LAYOUT, bytes);
    assert v == [MAGIC, |b.blockBytes|, |b.terminal|];
    assert b.blockBytes + b.terminal == bytes[BUNDLE_HEADER_BYTES..];
    assert bytes == bytes[..BUNDLE_HEADER_BYTES] + bytes[BUNDLE_HEADER_BYTES..];
  }

  /** The frame's bytes: the four letters "JAB1", both lengths, then both payloads. */
  lemma {:induction false} BundleOffsets(b: Bundle)
    ensures var bytes, cut := EncodeBundle(b), 12 + |b.blockBytes|;
            && |bytes| == cut + |b.terminal| && bytes[..4] == [0x4A, 0x41, 0x42, 0x31]
            && At(bytes, 4, 4, |b.blockBytes|) && At(bytes, 8, 4, |b.terminal|)
            && bytes[12..cut] == b.blockBytes && bytes[cut..] == b.terminal
  {
    SmallSizes();
    var f := [MAGIC, |b.blockBytes|, |b.terminal|];
    var frame := Encode(BUNDLE_LAYOUT, f);
    assert FieldStart(BUNDLE_LAYOUT, 0) == 0 && FieldStart(BUNDLE_LAYOUT, 1) == 4 && FieldStart(BUNDLE_LAYOUT, 2) == 8;
    FieldAt(BUNDLE_LAYOUT, f, 0, 0);
    FieldAt(BUNDLE_LAYOUT, f, 1, 4);
    FieldAt(BUNDLE_LAYOUT, f, 2, 8);
    MagicBytes();
    FrameBytes(frame, b.blockBytes, b.terminal);
  }

  lemma {:induction false} FrameBytes(frame: seq<byte>, first: seq<byte>, second: seq<byte>)
    requires |frame| == 12
    ensures var bytes := frame + (first + second);
            && bytes[..4] == frame[0..4] && bytes[4..8] == frame[4..8] && bytes[8..12] == frame[8..12]
            && bytes[12..12 + |first|] == first && bytes[12 + |first|..] == second
  {
  }

  lemma {:induction false} MagicBytes()
    ensures LittleEndian(MAGIC, 4) == [0x4A, 0x41, 0x42, 0x31]
  {
    assert LittleEndian(0x31, 1) == [0x31];
    assert LittleEndian(0x3142, 2) == [0x42] + LittleEndian(0x31, 1);
    assert LittleEndian(0x3142_41, 3) == [0x41] + LittleEndian(0x3142, 2);
    assert LittleEndian(MAGIC, 4) == [0x4A] + LittleEndian(0x3142_41, 3);
  }

  /** Any byte string the decoder accepts re-encodes to itself. */
  lemma {:induction false} BundleCanonical<O(!new)>(rules: Rules<O>, bytes: seq<byte>)
    requires DecodeBundle(rules, bytes).Ok?
    ensures Accepted(rules, DecodeBundle(rules, bytes).value)
    ensures EncodeBundle(DecodeBundle(rules, bytes).value) == bytes
  {
    var v := Decode(BUNDLE_LAYOUT, bytes);
    var cut := BUNDLE_HEADER_BYTES + v[1];
    PartsKept(rules, bytes[BUNDLE_HEADER_BYTES..cut], bytes[cut..]);
    FrameCanonical(bytes, DecodeBundle(rules, bytes).value);
  }

  predicate SharedPath(height: nat, sharedPathFrom: Option<u64>) {
    sharedPathFrom.Some? && height >= sharedPathFrom.value
  }

  /** The terminal of a block at `height` whose semantic id has the bytes `hash`, byte by byte. */
  predicate TerminalBinds(terminal: seq<byte>, height: u64, hash: Word256, sharedPathFrom: Option<u64>) {
    var shared := SharedPath(height, sharedPathFrom);
    && 42 < |terminal| <= (if shared then 1_200_000 else 1_048_576)
    && terminal[0] == (if shared then 5 else 4) && FromLittleEndian(terminal[1..9]) == height
    && FromLittleEndian(terminal[9..25]) == hash.first && FromLittleEndian(terminal[25..41]) == hash.second
    && terminal[41] < 4
  }

  lemma {:induction false} SealsExactly<O(!new)>(rules: Rules<O>, blockBytes: seq<byte>, terminal: seq<byte>,
                                                 header: WireHeader)
    requires 42 < |terminal|
    ensures Seal(rules, blockBytes, terminal, header).Ok? <==>
            TerminalBinds(terminal, header.height, rules.wordOf(SemanticHeaderId(LiftHeader(header))),
                          rules.sharedPathFrom)
  {
    PrefixExactly(terminal, rules.sharedPathFrom);
  }

  /** What a bundle is: bytes of a block within the size limit, above genesis, and a terminal that binds
      that block's height and semantic id in the version and size its height selects. */
  lemma {:induction false} AcceptsExactly<O(!new)>(rules: Rules<O>, blockBytes: seq<byte>, terminal: seq<byte>)
    ensures TryFromParts(rules, blockBytes, terminal).Ok? <==>
            && 0 < |blockBytes| <= 217 + 256 * 323 && FromBytes(rules.wire, blockBytes).Ok?
            && var header := FromBytes(rules.wire, blockBytes).value.header;
               && header.height > 0
               && TerminalBinds(terminal, header.height, rules.wordOf(SemanticHeaderId(LiftHeader(header))),
                                rules.sharedPathFrom)
  {
    DecodedExactly(rules, blockBytes, terminal, FromBytes(rules.wire, blockBytes));
  }

  lemma {:induction false} DecodedExactly<O(!new)>(rules: Rules<O>, blockBytes: seq<byte>, terminal: seq<byte>,
                                                   decoded: Result<WireBlock<O>, WireError>)
    ensures SealDecoded(rules, blockBytes, terminal, decoded).Ok? <==>
            && 0 < |blockBytes| <= 217 + 256 * 323 && decoded.Ok? && decoded.value.header.height > 0
            && TerminalBinds(terminal, decoded.value.header.height,
                             rules.wordOf(SemanticHeaderId(LiftHeader(decoded.value.header))), rules.sharedPathFrom)
  {
    if 42 < |terminal| && decoded.Ok? {
      SealsExactly(rules, blockBytes, terminal, decoded.value.header);
    }
  }

  lemma {:induction false} SealRefusals<O(!new)>(rules: Rules<O>, blockBytes: seq<byte>, terminal: seq<byte>,
                                                 header: WireHeader)
    requires 42 < |terminal|
    ensures var r := Seal(rules, blockBytes, terminal, header);
            var hash := rules.wordOf(SemanticHeaderId(LiftHeader(header)));
            if |terminal| > (if SharedPath(header.height, rules.sharedPathFrom) then 1_200_000 else 1_048_576)
              then r == Err(HistoryStepTerminalTooLarge)
            else if DecodePrefix(terminal, rules.sharedPathFrom).Err?
              then r == Err(HistoryStepMetadata(DecodePrefix(terminal, rules.sharedPathFrom).error))
            else if FromLittleEndian(terminal[1..9]) != header.height then r == Err(TerminalHeightMismatch)
            else if FromLittleEndian(terminal[9..25]) != hash.first || FromLittleEndian(terminal[25..41]) != hash.second
              then r == Err(TerminalHashMismatch)
            else r.Ok?
  {
    PrefixExactly(terminal, rules.sharedPathFrom);
  }

  /** Why a bundle is refused: the lengths, then the block, then genesis, then the terminal, in this order. */
  lemma {:induction false} Refusals<O(!new)>(rules: Rules<O>, blockBytes: seq<byte>, terminal: seq<byte>)
    ensures var r, decoded := TryFromParts(rules, blockBytes, terminal), FromBytes(rules.wire, blockBytes);
            if |blockBytes| == 0 then r == Err(MissingBlock)
            else if |blockBytes| > 217 + 256 * 323 then r == Err(BlockTooLarge)
            else if |terminal| <= 42 then r == Err(MissingHistoryStepTerminal)
            else if |terminal| > 1_200_000 then r == Err(HistoryStepTerminalTooLarge)
            else if decoded.Err? then r == Err(BlockDecode(decoded.error))
            else if decoded.value.header.height == 0 then r == Err(GenesisIsNotTransported)
            else r == Seal(rules, blockBytes, terminal, decoded.value.header)
  {
  }

  /** An accepted bundle names its own block and its terminal binds it. */
  lemma {:induction false} AcceptedBinds<O(!new)>(rules: Rules<O>, b: Bundle)
    requires Accepted(rules, b)
    ensures FromBytes(rules.wire, b.blockBytes).Ok?
    ensures var header := FromBytes(rules.wire, b.blockBytes).value.header;
            && b.height == header.height > 0 && b.blockHash == HashBlockHeader(LiftHeader(header))
            && TerminalBinds(b.terminal, b.height, rules.wordOf(SemanticHeaderId(LiftHeader(header))),
                             rules.sharedPathFrom)
  {
    AcceptsExactly(rules, b.blockBytes, b.terminal);
    SealedNames(rules, b, FromBytes(rules.wire, b.blockBytes).value.header);
  }

  lemma {:induction false} SealedNames<O(!new)>(rules: Rules<O>, b: Bundle, header: WireHeader)
    requires Seal(rules, b.blockBytes, b.terminal, header) == Ok(b)
    ensures b.height == header.height && b.blockHash == HashBlockHeader(LiftHeader(header))
  {
  }

  /** On every block that round-trips, the two constructors accept the same terminals and give the
      same bundle; above genesis they also give the same errors. */
  lemma {:induction false} ConstructorsAgree<O(!new)>(rules: Rules<O>, block: WireBlock<O>, terminal: seq<byte>)
    requires Lawful(rules.wire.codec) && WireCanonical(rules.wire, block)
    ensures var bytes := EncodeBlock(rules.wire.codec, block);
            && (TryFromLocalBlock(rules, block, terminal).Ok? <==> TryFromParts(rules, bytes, terminal).Ok?)
            && (block.header.height > 0 ==>
                TryFromLocalBlock(rules, block, terminal) == TryFromParts(rules, bytes, terminal))
  {
    BlockRoundTrip(rules.wire, block);
    SealsAgree(rules, EncodeBlock(rules.wire.codec, block), terminal, block);
  }

  lemma {:induction false} SealsAgree<O(!new)>(rules: Rules<O>, bytes: seq<byte>, terminal: seq<byte>,
                                               block: WireBlock<O>)
    ensures SealLocal(rules, bytes, terminal, block.header).Ok? <==> SealDecoded(rules, bytes, terminal, Ok(block)).Ok?
    ensures block.header.height > 0 ==>
              SealLocal(rules, bytes, terminal, block.header) == SealDecoded(rules, bytes, terminal, Ok(block))
  {
  }

  lemma {:induction false} LengthDecidesTooLarge<O(!new)>(rules: Rules<O>, bytes: seq<byte>, terminal: seq<byte>,
                                                          decoded: Result<WireBlock<O>, WireError>, header: WireHeader)
    requires |bytes| > 0
    ensures SealDecoded(rules, bytes, terminal, decoded) == Err(BlockTooLarge) <==> |bytes| > MAX_BLOCK_BYTES
    ensures SealLocal(rules, bytes, terminal, header) == Err(BlockTooLarge) <==>
            header.height > 0 && |bytes| > MAX_BLOCK_BYTES
  {
  }

  /** The size limit is the object-free length of 256 records, so a block is too large exactly when
      its object section does not fit the room its missing transactions leave. */
  lemma {:induction false} TooLargeExactly<O(!new)>(rules: Rules<O>, block: WireBlock<O>, terminal: seq<byte>)
    requires |block.transactions| <= BLOCK_MAX_TXS && |block.objects| <= MAX_BLOCK_OBJECTS
    ensures var room := 323 * (BLOCK_MAX_TXS - |block.transactions|);
            && (TryFromParts(rules, EncodeBlock(rules.wire.codec, block), terminal) == Err(BlockTooLarge) <==>
                |block.objects| > 0 && 2 + ObjectsLength(rules.wire.codec, block.objects) > room)
            && (TryFromLocalBlock(rules, block, terminal) == Err(BlockTooLarge) <==>
                block.header.height > 0 && |block.objects| > 0
                && 2 + ObjectsLength(rules.wire.codec, block.objects) > room)
  {
    var bytes := EncodeBlock(rules.wire.codec, block);
    WireLengthExact(rules.wire.codec, block);
    LengthDecidesTooLarge(rules, bytes, terminal, FromBytes(rules.wire, bytes), block.header);
  }

  /** So a block of 256 transactions carries no object at all. */
  lemma {:induction false} FullBlockCarriesNoObjects<O(!new)>(rules: Rules<O>, block: WireBlock<O>, terminal: seq<byte>)
    requires |block.transactions| == BLOCK_MAX_TXS && 0 < |block.objects| <= MAX_BLOCK_OBJECTS
    ensures TryFromLocalBlock(rules, block, terminal).Err?
    ensures TryFromParts(rules, EncodeBlock(rules.wire.codec, block), terminal) == Err(BlockTooLarge)
  {
    TooLargeExactly(rules, block, terminal);
  }

  /** Any accepted bundle survives mining: patching the nonce in its block bytes keeps the terminal
      binding and changes the block id exactly when the nonce changes. */
  lemma {:induction false} MiningKeepsBundle<O(!new)>(rules: Rules<O>, b: Bundle, nonce: u128)
    requires Lawful(rules.wire.codec) && Accepted(rules, b)
    ensures BLOCK_WIRE_NONCE_OFFSET + 16 <= |b.blockBytes|
    ensures var patched := Patch(b.blockBytes, BLOCK_WIRE_NONCE_OFFSET, LittleEndian(nonce, 16));
            && FromBytes(rules.wire, b.blockBytes).Ok?
            && FromBytes(rules.wire, patched) == Ok(WithNonce(FromBytes(rules.wire, b.blockBytes).value, nonce))
            && TryFromParts(rules, patched, b.terminal).Ok?
            && (TryFromParts(rules, patched, b.terminal).value.blockHash == b.blockHash
                <==> nonce == FromBytes(rules.wire, b.blockBytes).value.header.nonce)
  {
    AcceptedBinds(rules, b);
    BlockBytesCanonical(rules.wire, b.blockBytes);
    var block := FromBytes(rules.wire, b.blockBytes).value;
    NoncePatch(rules.wire.codec, block, nonce);
    NonceKeepsCanonical(rules.wire, block, nonce);
    BlockRoundTrip(rules.wire, WithNonce(block, nonce));
    PatchedSeals(rules, b, Patch(b.blockBytes, BLOCK_WIRE_NONCE_OFFSET, LittleEndian(nonce, 16)), block, nonce);
  }

  lemma {:induction false} PatchedSeals<O(!new)>(rules: Rules<O>, b: Bundle, patched: seq<byte>, block: WireBlock<O>,
                                                 nonce: u128)
    requires SealDecoded(rules, b.blockBytes, b.terminal, Ok(block)) == Ok(b) && |patched| == |b.blockBytes|
    ensures var r := SealDecoded(rules, patched, b.terminal, Ok(WithNonce(block, nonce)));
            r.Ok? && (r.value.blockHash == b.blockHash <==> nonce == block.header.nonce)
  {
    IdsAndNonce(WithNonce(block, nonce).header, block.header);
  }
}
